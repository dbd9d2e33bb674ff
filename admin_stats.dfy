/** The admin statistics endpoint (api/admin/stats.js): a password check,
    then GoatCounter and GitHub answers gathered into one response. Each
    request's outcome is a parameter. */
module AdminStats {
  import opened Common
  import Dashboard
  import AdminLogin

  // ---------------------------------------------------------------------
  // gcFetch

  /** How one request ended: it threw (or its body did not parse), or it
      answered with a status and, when ok, a body. */
  datatype Attempt<T> = Threw | Answered(status: int, body: T)

  predicate IsOk<T>(a: Attempt<T>) { a.Answered? && 200 <= a.status <= 299 }

  /** A first attempt that is retried: one that threw or got 429. */
  predicate Retried<T>(a: Attempt<T>) { a.Threw? || (!IsOk(a) && a.status == 429) }

  const RateLimited: int := 429

  const MaxAttempts: nat := 2

  /** gcFetch: `outcome(n)` is how the request of attempt n ends. Returns
      the body, or None for null, and the number of requests made. */
  method GcFetch<T>(outcome: nat -> Attempt<T>) returns (r: Option<T>, made: nat)
    ensures 1 <= made <= MaxAttempts
    ensures made == 2 <==> Retried(outcome(0))
    ensures r.Some? <==> IsOk(outcome(made - 1))
    ensures r.Some? ==> r.value == outcome(made - 1).body
    ensures forall n :: 0 <= n < made - 1 ==> !IsOk(outcome(n))
  {
    made := 0;
    var attempt: nat := 0;
    while attempt < MaxAttempts
      invariant attempt <= MaxAttempts && made == attempt
      invariant attempt == 1 ==> Retried(outcome(0))
      invariant attempt != 2
    {
      var a := outcome(attempt);
      made := made + 1;
      if a.Answered? {
        if IsOk(a) {
          return Some(a.body), made;
        }
        if a.status == RateLimited && attempt == 0 {
          attempt := attempt + 1;
          continue;
        }
        return None, made;
      } else {
        if attempt == 0 {
          attempt := attempt + 1;
          continue;
        }
        return None, made;
      }
    }
    r := None;
  }

  // ---------------------------------------------------------------------
  // verifyPassword

  /** `s.replace(p, '')` with a string pattern: the first occurrence only. */
  function RemoveFirst(s: string, p: string): (r: string)
    ensures IndexOf(s, p).None? ==> r == s
    ensures IndexOf(s, p).Some? ==> var i := IndexOf(s, p).value;
      r == s[..i] + s[i + |p|..]
  {
    match IndexOf(s, p)
    case None => s
    case Some(i) => s[..i] + s[i + |p|..]
  }

  const BearerPrefix: string := "Bearer "

  /** verifyPassword as written: a missing (or empty) header is refused, any
      other is accepted when it equals ADMIN_PASSWORD once its first
      "Bearer " is removed. */
  function VerifyPasswordAsWritten(header: string, adminPassword: Option<string>): bool
  {
    header != "" && adminPassword.Some? && RemoveFirst(header, BearerPrefix) == adminPassword.value
  }

  /** With ADMIN_PASSWORD set to the empty string, the header "Bearer "
      alone is accepted, although the login endpoint treats that password
      as not configured. */
  lemma EmptyPasswordAcceptsBareBearer()
    ensures VerifyPasswordAsWritten(BearerPrefix, Some(""))
    ensures !AdminLogin.Configured(Some(""))
  {
    assert OccursAt(BearerPrefix, BearerPrefix, 0);
    assert IndexOf(BearerPrefix, BearerPrefix) == Some(0);
  }

  /** verifyPassword as the login endpoint configures the password: nothing
      is accepted unless ADMIN_PASSWORD is set and not empty. */
  function VerifyPassword(header: string, adminPassword: Option<string>): (ok: bool)
    ensures ok <==>
      (header != "" && AdminLogin.Configured(adminPassword) &&
       RemoveFirst(header, BearerPrefix) == adminPassword.value)
  {
    AdminLogin.Configured(adminPassword) && VerifyPasswordAsWritten(header, adminPassword)
  }

  /** The two agree whenever a password is configured, and an unset one
      never authorizes either. */
  lemma VerifyPasswordAgrees(header: string, adminPassword: Option<string>)
    ensures AdminLogin.Configured(adminPassword) ==>
      VerifyPassword(header, adminPassword) == VerifyPasswordAsWritten(header, adminPassword)
    ensures adminPassword.None? ==> !VerifyPassword(header, adminPassword) && !VerifyPasswordAsWritten(header, adminPassword)
  {
  }

  /** The header the admin page sends, `Bearer <password>`, is accepted
      exactly when the password is the configured one, and it is the
      password the login endpoint answers 200 for. */
  lemma BearerHeaderAccepted(password: string, adminPassword: Option<string>)
    requires AdminLogin.Configured(adminPassword)
    ensures VerifyPassword(BearerPrefix + password, adminPassword) <==> password == adminPassword.value
  {
    var h := BearerPrefix + password;
    assert OccursAt(h, BearerPrefix, 0);
    assert IndexOf(h, BearerPrefix) == Some(0);
    assert RemoveFirst(h, BearerPrefix) == h[|BearerPrefix|..] == password;
  }

  // ---------------------------------------------------------------------
  // The handler

  /** A row of /stats/hits as the admin page reads it; a missing path is
      "", a missing count 0 and missing stats []. */
  datatype PageHit = PageHit(path: string, count: int, stats: seq<Dashboard.Stat>)

  /** A row of /stats/browsers, /systems, /locations or /languages; missing
      text fields are "", a missing count 0. */
  datatype StatEntry = StatEntry(name: string, id: string, language: string, count: int)

  datatype RateCore = RateCore(limit: int, remaining: int, reset: int)

  /** The bodies gcFetch returned (None for null): the two totals, the
      hits and the four breakdowns, each with the fields read (None when
      missing). */
  datatype TotalBody = TotalBody(stats: Option<seq<Dashboard.Stat>>, total: Option<int>)

  datatype GcBodies = GcBodies(
    recent: Option<TotalBody>, allTime: Option<TotalBody>, hits: Option<Option<seq<PageHit>>>,
    browsers: Option<Option<seq<StatEntry>>>, systems: Option<Option<seq<StatEntry>>>,
    locations: Option<Option<seq<StatEntry>>>, languages: Option<Option<seq<StatEntry>>>)

  datatype StatsResponse =
    | Forbidden
    | StatsOk(visitors: Dashboard.Visitors, hits: seq<PageHit>, browsers: seq<StatEntry>,
              systems: seq<StatEntry>, locations: seq<StatEntry>, languages: seq<StatEntry>,
              rateLimit: Option<RateCore>)

  /** The response and the upstream requests made for it: calls to gcFetch
      and to GitHub's rate_limit. */
  datatype Handled = Handled(response: StatsResponse, gcCalls: nat, githubCalls: nat)

  function OrEmpty<T>(x: Option<Option<seq<T>>>): seq<T>
  {
    if x.Some? && x.value.Some? then x.value.value else []
  }

  /** The handler. Without a GoatCounter token every gcFetch result is
      null; without a GitHub token, or when rate_limit fails, `rateLimit`
      is null. `rate` is the `resources.core` of a successful rate_limit
      answer (None for a failed one or one without it). */
  function HandleStats(header: string, adminPassword: Option<string>, hasGcToken: bool, hasGhToken: bool,
                       gc: GcBodies, rate: Option<RateCore>, today: string, yesterday: string): Handled
  {
    if !VerifyPassword(header, adminPassword) then Handled(Forbidden, 0, 0)
    else
      var b := if hasGcToken then gc else GcBodies(None, None, None, None, None, None, None);
      var recentStats := if b.recent.Some? && b.recent.value.stats.Some? then b.recent.value.stats.value else [];
      var total := if b.allTime.Some? && b.allTime.value.total.Some? then b.allTime.value.total.value else 0;
      Handled(
        StatsOk(
          Dashboard.Visitors(Dashboard.DailyOf(recentStats, today), Dashboard.DailyOf(recentStats, yesterday), total),
          OrEmpty(b.hits), OrEmpty(b.browsers), OrEmpty(b.systems), OrEmpty(b.locations), OrEmpty(b.languages),
          if hasGhToken then rate else None),
        if hasGcToken then 7 else 0,
        if hasGhToken then 1 else 0)
  }

  /** A request whose header is not accepted gets 403 and makes no upstream
      request; an accepted one always gets the statistics. */
  lemma ForbiddenWithoutUpstream(header: string, adminPassword: Option<string>, hasGcToken: bool, hasGhToken: bool,
                                 gc: GcBodies, rate: Option<RateCore>, today: string, yesterday: string)
    ensures var h := HandleStats(header, adminPassword, hasGcToken, hasGhToken, gc, rate, today, yesterday);
      (h.response == Forbidden <==> !VerifyPassword(header, adminPassword)) &&
      (h.response == Forbidden ==> h.gcCalls == 0 && h.githubCalls == 0) &&
      (adminPassword.None? ==> h.response == Forbidden)
  {
  }

  /** Missing upstream data gives zero visitors, empty lists and a null
      rate limit. */
  lemma StatsDefaults(header: string, adminPassword: Option<string>, hasGcToken: bool, hasGhToken: bool,
                      gc: GcBodies, rate: Option<RateCore>, today: string, yesterday: string)
    requires VerifyPassword(header, adminPassword)
    requires !hasGcToken || gc == GcBodies(None, None, None, None, None, None, None)
    requires !hasGhToken || rate.None?
    ensures HandleStats(header, adminPassword, hasGcToken, hasGhToken, gc, rate, today, yesterday).response ==
      StatsOk(Dashboard.Visitors(0, 0, 0), [], [], [], [], [], None)
  {
  }
}
