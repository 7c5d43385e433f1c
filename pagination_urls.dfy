/** `scraper/application/pagination_urls.py`: a free-standing copy of
    `Pagination.urls()`. It agrees with the domain method on every kind but
    MONTH, where it formats the month into a `date` placeholder. */
module PaginationUrls {
  import opened Wrappers
  import opened Strings
  import opened PaginationDomain

  /** `pagination_urls(pagination)`. */
  method PaginationUrls(p: Pagination, env: Env) returns (r: Result<seq<string>, UrlsError>)
    ensures r == Enumerate(p, env, "date")
  {
    match p.ptype {
      case None =>
        r := Single(env.lib, p.url);
      case Some(NoPagination) =>
        r := Single(env.lib, p.url);
      case Some(Simple) =>
        if p.simpleStartFrom.None? || p.limit.None? {
          return Err(Unset);
        }
        r := Gather(Stepper(SimplePager(p.simpleStartFrom.value), env, p.url), Count(p.limit.value));
      case Some(Day) =>
        if p.dateFormat.None? || p.limit.None? {
          return Err(Unset);
        }
        r := Collect(Stepper(DayPager(p.dateFormat.value), env, p.url), p.limit.value);
      case Some(Month) =>
        if p.dateFormat.None? || p.limit.None? {
          return Err(Unset);
        }
        r := Collect(Stepper(MonthPager(p.dateFormat.value, "date"), env, p.url), p.limit.value);
    }
  }

  /** On NONE, SIMPLE and DAY descriptors the copy and `Pagination.urls()`
      give the same result, error or list; on MONTH they agree exactly when
      the limit leaves nothing to format. */
  lemma AgreesWithDomain(p: Pagination, env: Env)
    ensures p.ptype != Some(Month) ==> Enumerate(p, env, "date") == Enumerate(p, env, "month")
    ensures p.ptype == Some(Month) && p.dateFormat.Some? && p.limit.Some? && p.limit.value <= 0 ==>
              Enumerate(p, env, "date") == Enumerate(p, env, "month") == Ok([])
  {
  }

  /** A validated MONTH descriptor whose first placeholder is `{month}`
      always fails here once the limit is positive: formatting raises
      KeyError('month') on the very first page. */
  lemma MonthTemplateFails(p: Pagination, env: Env, pre: string, post: string)
    requires WellFormed(p) && p.ptype == Some(Month)
    requires ValidClock(env.now)
    requires p.url == pre + "{month}" + post && NoBraces(pre)
    requires p.limit.value >= 1
    ensures Enumerate(p, env, "date") == Err(BadTemplate(UnknownField("month")))
  {
    var pager := MonthPager(p.dateFormat.value, "date");
    assert pre + "{" + "month" + "}" + post == p.url;
    FormatOtherField(pre, "month", post, "date",
      env.strftime(MonthStart(env.now.year, env.now.month), p.dateFormat.value));
    assert Step(pager, env, p.url, 0) == Err(BadTemplate(UnknownField("month")));
    GatherErr(Stepper(pager, env, p.url), Count(p.limit.value), 0);
  }
}
