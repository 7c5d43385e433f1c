/** `scraper/domain/pagination.py`: a pagination descriptor, its validity
    rules and the list of page URLs it stands for.

    The clock (`datetime.now`) and `strftime` are parameters: `Clock` gives
    today's date as a proleptic Gregorian ordinal together with the current
    year and month, and `strftime` renders a `Moment` with a format string. */
module PaginationDomain {
  import opened Wrappers
  import opened Strings
  import opened Web

  /** `PaginationType`; `NoPagination` is the member called NONE. */
  datatype PaginationType = NoPagination | Simple | Day | Month

  /** `Pagination`; the UUID identifier is an opaque number. */
  datatype Pagination = Pagination(
    id: nat,
    ptype: Option<PaginationType>,
    url: string,
    limit: Option<int>,
    simpleStartFrom: Option<int>,
    dateFormat: Option<string>)

  /** The rules `validate_pagination` enforces, kind by kind. */
  predicate WellFormed(p: Pagination) {
    match p.ptype
    case None => p.limit.None? && p.simpleStartFrom.None? && p.dateFormat.None?
    case Some(NoPagination) => p.limit.None? && p.simpleStartFrom.None? && p.dateFormat.None?
    case Some(Simple) => Contains(p.url, "{n}") && p.simpleStartFrom.Some? && p.limit.Some?
    case Some(Day) => Contains(p.url, "{date}") && p.dateFormat.Some? && p.limit.Some?
    case Some(Month) => Contains(p.url, "{month}") && p.dateFormat.Some? && p.limit.Some?
  }

  function CheckUnpaginated(p: Pagination): (r: Result<Pagination, string>)
    ensures r.Ok? <==> p.limit.None? && p.simpleStartFrom.None? && p.dateFormat.None?
    ensures r.Ok? ==> r.value == p
  {
    if p.limit.Some? then Err("Pagination limit must be None for PaginationType.NONE")
    else if p.simpleStartFrom.Some? then Err("Pagination start from must be None for PaginationType.NONE")
    else if p.dateFormat.Some? then Err("Date format must be None for PaginationType.NONE")
    else Ok(p)
  }

  /** `validate_pagination`: the descriptor itself, or the message of the
      first assertion that fails. */
  function Validate(p: Pagination): (r: Result<Pagination, string>)
    ensures r.Ok? <==> WellFormed(p)
    ensures r.Ok? ==> r.value == p
  {
    match p.ptype
    case None => CheckUnpaginated(p)
    case Some(NoPagination) => CheckUnpaginated(p)
    case Some(Simple) =>
      if !Contains(p.url, "{n}") then Err("Simple pagination URL must contain '{n}'")
      else if p.simpleStartFrom.None? then Err("Simple pagination start from must be set")
      else if p.limit.None? then Err("Simple pagination limit must be set")
      else Ok(p)
    case Some(Day) =>
      if !Contains(p.url, "{date}") then Err("Day pagination URL must contain '{date}'")
      else if p.dateFormat.None? then Err("Date format must be set for Day pagination")
      else if p.limit.None? then Err("Day pagination limit must be set")
      else Ok(p)
    case Some(Month) =>
      if !Contains(p.url, "{month}") then Err("Month pagination URL must contain '{month}'")
      else if p.dateFormat.None? then Err("Date format must be set for Month pagination")
      else if p.limit.None? then Err("Month pagination limit must be set")
      else Ok(p)
  }

  /** What `strftime` is applied to: a day, or the first day of a month.
      The source resets hour, minute and second but keeps the microseconds
      of the clock reading; a `Moment` carries no time of day at all. */
  datatype Moment = DayStart(ordinal: int) | MonthStart(year: int, month: int)

  /** `datetime.now()`, reduced to what the enumeration reads. */
  datatype Clock = Clock(ordinal: int, year: int, month: int)

  /** Ordinal of 9999-12-31, the last date `datetime` can hold. */
  const MaxOrdinal: int := 3652059

  datatype Env = Env(lib: UrlLib, strftime: (Moment, string) -> string, now: Clock)

  predicate ValidClock(c: Clock) {
    1 <= c.ordinal <= MaxOrdinal && 1 <= c.month <= 12
  }

  /** The exceptions `urls()` can raise: a bare `assert` on an unset field,
      `str.format` failing, `HttpUrl` rejecting the text, `timedelta`
      arithmetic past year 9999, and `replace(month=...)` past December. */
  datatype UrlsError =
    | Unset
    | BadTemplate(cause: FormatError)
    | InvalidUrl(text: string)
    | DateOverflow
    | MonthOutOfRange(month: int)

  /** `HttpUrl(t.format(**{field: value}))`. */
  function Rendered(lib: UrlLib, t: string, field: string, value: string): Result<string, UrlsError> {
    match Format(t, field, value)
    case Err(e) => Err(BadTemplate(e))
    case Ok(s) => if lib.httpUrl(s).Some? then Ok(lib.httpUrl(s).value) else Err(InvalidUrl(s))
  }

  /** `[HttpUrl(url)]`: the template itself, unformatted. */
  function Single(lib: UrlLib, url: string): Result<seq<string>, UrlsError> {
    if lib.httpUrl(url).Some? then Ok([lib.httpUrl(url).value]) else Err(InvalidUrl(url))
  }

  /** How the i-th page is derived; `field` is the placeholder the month
      name is formatted into. */
  datatype Pager = SimplePager(start: int) | DayPager(fmt: string) | MonthPager(fmt: string, field: string)

  /** The i-th URL (counting from 0), exactly as one loop iteration computes
      it: SIMPLE formats `n = start + i`; DAY adds i days to today; MONTH
      replaces the month number by current month + i, in the same year. */
  function Step(pager: Pager, env: Env, url: string, i: nat): Result<string, UrlsError> {
    match pager
    case SimplePager(start) => Rendered(env.lib, url, "n", IntToString(start + i))
    case DayPager(fmt) =>
      if env.now.ordinal + i > MaxOrdinal then Err(DateOverflow)
      else Rendered(env.lib, url, "date", env.strftime(DayStart(env.now.ordinal + i), fmt))
    case MonthPager(fmt, field) =>
      if env.now.month + i > 12 then Err(MonthOutOfRange(env.now.month + i))
      else Rendered(env.lib, url, field, env.strftime(MonthStart(env.now.year, env.now.month + i), fmt))
  }

  /** The steps of one descriptor, as a function of the index. */
  function Stepper(pager: Pager, env: Env, url: string): nat -> Result<string, UrlsError> {
    (i: nat) => Step(pager, env, url, i)
  }

  /** The first n URLs, built in order; the first failing step is the
      exception raised. */
  function Gather(step: nat -> Result<string, UrlsError>, n: nat): Result<seq<string>, UrlsError> {
    if n == 0 then Ok([])
    else
      match Gather(step, n - 1)
      case Err(e) => Err(e)
      case Ok(us) =>
        match step(n - 1)
        case Err(e) => Err(e)
        case Ok(u) => Ok(us + [u])
  }

  /** The length of `range(0, limit)`, which is also that of
      `range(start, limit + start)`. */
  function Count(limit: int): nat {
    if limit < 0 then 0 else limit
  }

  /** The URLs of a descriptor, `monthField` being the placeholder the MONTH
      branch formats into. */
  function Enumerate(p: Pagination, env: Env, monthField: string): Result<seq<string>, UrlsError> {
    match p.ptype
    case None => Single(env.lib, p.url)
    case Some(NoPagination) => Single(env.lib, p.url)
    case Some(Simple) =>
      if p.simpleStartFrom.None? || p.limit.None? then Err(Unset)
      else Gather(Stepper(SimplePager(p.simpleStartFrom.value), env, p.url), Count(p.limit.value))
    case Some(Day) =>
      if p.dateFormat.None? || p.limit.None? then Err(Unset)
      else Gather(Stepper(DayPager(p.dateFormat.value), env, p.url), Count(p.limit.value))
    case Some(Month) =>
      if p.dateFormat.None? || p.limit.None? then Err(Unset)
      else Gather(Stepper(MonthPager(p.dateFormat.value, monthField), env, p.url), Count(p.limit.value))
  }

  /** Once a prefix fails, every longer run fails with the same error. */
  lemma {:induction false} GatherErrPersists(step: nat -> Result<string, UrlsError>, m: nat, n: nat)
    requires m <= n
    requires Gather(step, m).Err?
    ensures Gather(step, n) == Gather(step, m)
    decreases n - m
  {
    if m < n {
      GatherErrPersists(step, m, n - 1);
    }
  }

  /** A successful run yields the steps' URLs in order. */
  lemma {:induction false} GatherOkSteps(step: nat -> Result<string, UrlsError>, n: nat, us: seq<string>)
    requires Gather(step, n) == Ok(us)
    ensures |us| == n && forall i :: 0 <= i < n ==> step(i) == Ok(us[i])
  {
    if n > 0 {
      var prev := Gather(step, n - 1);
      assert prev.Ok?;
      var last := step(n - 1);
      assert last.Ok?;
      assert us == prev.value + [last.value];
      GatherOkSteps(step, n - 1, prev.value);
    }
  }

  /** When every step succeeds, the run yields exactly their URLs. */
  lemma {:induction false} StepsGatherOk(step: nat -> Result<string, UrlsError>, n: nat, us: seq<string>)
    requires |us| == n && forall i :: 0 <= i < n ==> step(i) == Ok(us[i])
    ensures Gather(step, n) == Ok(us)
  {
    if n > 0 {
      var init := us[..n - 1];
      StepsGatherOk(step, n - 1, init);
      assert step(n - 1) == Ok(us[n - 1]);
      assert us == init + [us[n - 1]];
    }
  }

  /** The run succeeds exactly when every step does, and then yields the
      steps' URLs in order. */
  lemma GatherOk(step: nat -> Result<string, UrlsError>, n: nat, us: seq<string>)
    ensures Gather(step, n) == Ok(us) <==> |us| == n && forall i :: 0 <= i < n ==> step(i) == Ok(us[i])
  {
    if Gather(step, n) == Ok(us) {
      GatherOkSteps(step, n, us);
    }
    if |us| == n && forall i :: 0 <= i < n ==> step(i) == Ok(us[i]) {
      StepsGatherOk(step, n, us);
    }
  }

  /** When every step succeeds, so does the run. */
  lemma {:induction false} GatherAllOk(step: nat -> Result<string, UrlsError>, n: nat)
    requires forall i :: 0 <= i < n ==> step(i).Ok?
    ensures Gather(step, n).Ok?
  {
    if n > 0 {
      GatherAllOk(step, n - 1);
    }
  }

  /** A failed run reports the error of its first failing step. */
  lemma GatherErr(step: nat -> Result<string, UrlsError>, n: nat, k: nat)
    requires k < n
    requires step(k).Err?
    requires forall i :: 0 <= i < k ==> step(i).Ok?
    ensures Gather(step, n) == Err(step(k).error)
  {
    GatherAllOk(step, k);
    GatherErrPersists(step, k + 1, n);
  }

  /** The loop of the DAY and MONTH branches. */
  method Collect(step: nat -> Result<string, UrlsError>, limit: int) returns (r: Result<seq<string>, UrlsError>)
    ensures r == Gather(step, Count(limit))
  {
    var result: seq<string> := [];
    var i := 0;
    while i < limit
      invariant 0 <= i <= Count(limit)
      invariant Gather(step, i) == Ok(result)
    {
      var u := step(i);
      if u.Err? {
        GatherErrPersists(step, i + 1, Count(limit));
        return Err(u.error);
      }
      result := result + [u.value];
      i := i + 1;
    }
    return Ok(result);
  }

  /** `Pagination.urls()`. */
  method Urls(p: Pagination, env: Env) returns (r: Result<seq<string>, UrlsError>)
    ensures r == Enumerate(p, env, "month")
  {
    match p.ptype {
      case None =>
        r := Single(env.lib, p.url);
      case Some(NoPagination) =>
        r := Single(env.lib, p.url);
      case Some(Simple) =>
        if p.simpleStartFrom.None? || p.limit.None? {
          return Err(Unset);
        }
        r := Gather(Stepper(SimplePager(p.simpleStartFrom.value), env, p.url), Count(p.limit.value));
      case Some(Day) =>
        if p.dateFormat.None? || p.limit.None? {
          return Err(Unset);
        }
        r := Collect(Stepper(DayPager(p.dateFormat.value), env, p.url), p.limit.value);
      case Some(Month) =>
        if p.dateFormat.None? || p.limit.None? {
          return Err(Unset);
        }
        r := Collect(Stepper(MonthPager(p.dateFormat.value, "month"), env, p.url), p.limit.value);
    }
  }

  /** NONE, or no type: the one-element list of the template as given,
      placeholders included. */
  lemma UnpaginatedUrls(p: Pagination, env: Env, monthField: string, u: string)
    requires p.ptype.None? || p.ptype == Some(NoPagination)
    requires env.lib.httpUrl(p.url) == Some(u)
    ensures Enumerate(p, env, monthField) == Ok([u])
  {
  }

  /** SIMPLE: max(limit, 0) URLs, the i-th formatted with n = start + i;
      the call succeeds exactly when each of them formats and validates. */
  lemma SimpleUrls(p: Pagination, env: Env, monthField: string, us: seq<string>)
    requires p.ptype == Some(Simple) && p.simpleStartFrom.Some? && p.limit.Some?
    ensures Enumerate(p, env, monthField) == Ok(us) <==>
            |us| == Count(p.limit.value) &&
            forall i :: 0 <= i < |us| ==>
              Rendered(env.lib, p.url, "n", IntToString(p.simpleStartFrom.value + i)) == Ok(us[i])
  {
    GatherOk(Stepper(SimplePager(p.simpleStartFrom.value), env, p.url), Count(p.limit.value), us);
  }

  /** DAY: max(limit, 0) URLs, the i-th formatted from the day i days after
      today; the call succeeds exactly when no such day passes year 9999 and
      each URL formats and validates. */
  lemma DayUrls(p: Pagination, env: Env, monthField: string, us: seq<string>)
    requires p.ptype == Some(Day) && p.dateFormat.Some? && p.limit.Some?
    requires ValidClock(env.now)
    ensures Enumerate(p, env, monthField) == Ok(us) <==>
            |us| == Count(p.limit.value) &&
            env.now.ordinal + |us| - 1 <= MaxOrdinal &&
            forall i :: 0 <= i < |us| ==>
              Rendered(env.lib, p.url, "date", env.strftime(DayStart(env.now.ordinal + i), p.dateFormat.value)) == Ok(us[i])
  {
    var pager := DayPager(p.dateFormat.value);
    GatherOk(Stepper(pager, env, p.url), Count(p.limit.value), us);
    if Enumerate(p, env, monthField) == Ok(us) && |us| > 0 {
      assert Step(pager, env, p.url, |us| - 1).Ok?;
    }
  }

  /** MONTH: the i-th URL is formatted, into `monthField`, from the first of
      the month numbered current month + i of the current year; so the call
      succeeds exactly when that number never passes 12 and each URL formats
      and validates. */
  lemma MonthUrls(p: Pagination, env: Env, monthField: string, us: seq<string>)
    requires p.ptype == Some(Month) && p.dateFormat.Some? && p.limit.Some?
    requires ValidClock(env.now)
    ensures Enumerate(p, env, monthField) == Ok(us) <==>
            |us| == Count(p.limit.value) &&
            env.now.month + |us| - 1 <= 12 &&
            forall i :: 0 <= i < |us| ==>
              Rendered(env.lib, p.url, monthField,
                env.strftime(MonthStart(env.now.year, env.now.month + i), p.dateFormat.value)) == Ok(us[i])
  {
    var pager := MonthPager(p.dateFormat.value, monthField);
    GatherOk(Stepper(pager, env, p.url), Count(p.limit.value), us);
    if Enumerate(p, env, monthField) == Ok(us) && |us| > 0 {
      assert Step(pager, env, p.url, |us| - 1).Ok?;
    }
  }

  /** There is no year rollover: a MONTH descriptor whose pages would run
      past December always fails, whatever its template. */
  lemma MonthNoRollover(p: Pagination, env: Env, monthField: string)
    requires p.ptype == Some(Month) && p.dateFormat.Some? && p.limit.Some?
    requires ValidClock(env.now)
    requires env.now.month + p.limit.value - 1 > 12
    ensures Enumerate(p, env, monthField).Err?
  {
    var pager := MonthPager(p.dateFormat.value, monthField);
    var n := Count(p.limit.value);
    var k := 12 - env.now.month + 1;
    assert Step(pager, env, p.url, k).Err?;
    if Enumerate(p, env, monthField).Ok? {
      GatherOk(Stepper(pager, env, p.url), n, Enumerate(p, env, monthField).value);
    }
  }

  /** The month a rollover-aware enumeration would use: i months after
      (year, month), carrying into the following years. */
  function RolledMonthStart(year: int, month: int, i: nat): (m: Moment)
    requires 1 <= month <= 12
    ensures m.MonthStart? && 1 <= m.month <= 12
    ensures 12 * m.year + m.month == 12 * year + month + i
  {
    MonthStart(year + (month - 1 + i) / 12, (month - 1 + i) % 12 + 1)
  }

  /** MONTH with rollover: the i-th URL formats the first of the i-th month
      from now, in whatever year that falls. */
  function RolledMonthStep(env: Env, url: string, fmt: string, i: nat): Result<string, UrlsError>
    requires ValidClock(env.now)
  {
    Rendered(env.lib, url, "month", env.strftime(RolledMonthStart(env.now.year, env.now.month, i), fmt))
  }

  function GatherRolled(env: Env, url: string, fmt: string, n: nat): (r: Result<seq<string>, UrlsError>)
    requires ValidClock(env.now)
  {
    if n == 0 then Ok([])
    else
      match GatherRolled(env, url, fmt, n - 1)
      case Err(e) => Err(e)
      case Ok(us) =>
        match RolledMonthStep(env, url, fmt, n - 1)
        case Err(e) => Err(e)
        case Ok(u) => Ok(us + [u])
  }

  /** With rollover, a template with one `{month}` placeholder yields one URL
      per month for any limit: the i-th is the template with the i-th month
      from now in place of the placeholder, and no month number leaves 1..12. */
  lemma {:induction false} RolledMonthUrls(env: Env, pre: string, post: string, fmt: string, n: nat)
    requires ValidClock(env.now)
    requires NoBraces(pre) && NoBraces(post)
    requires forall y: int, mo: int :: 1 <= mo <= 12 ==>
               env.lib.httpUrl(pre + env.strftime(MonthStart(y, mo), fmt) + post).Some?
    ensures GatherRolled(env, pre + "{month}" + post, fmt, n).Ok?
    ensures |GatherRolled(env, pre + "{month}" + post, fmt, n).value| == n
    ensures forall i :: 0 <= i < n ==>
              GatherRolled(env, pre + "{month}" + post, fmt, n).value[i] ==
              env.lib.httpUrl(pre + env.strftime(RolledMonthStart(env.now.year, env.now.month, i), fmt) + post).value
  {
    if n > 0 {
      var url := pre + "{month}" + post;
      RolledMonthUrls(env, pre, post, fmt, n - 1);
      var m := RolledMonthStart(env.now.year, env.now.month, n - 1);
      var v := env.strftime(MonthStart(m.year, m.month), fmt);
      assert m == MonthStart(m.year, m.month);
      FormatOneField(pre, "month", post, v);
      assert pre + "{" + "month" + "}" + post == url;
      assert env.lib.httpUrl(pre + v + post).Some?;
      assert RolledMonthStep(env, url, fmt, n - 1) == Ok(env.lib.httpUrl(pre + v + post).value);
    }
  }

  /** A MONTH template with one `{month}` placeholder enumerates, while the
      months stay within the year, to the template with each month's
      rendering in place of the placeholder. */
  lemma MonthTemplateRenders(p: Pagination, env: Env, pre: string, post: string)
    requires p.ptype == Some(Month) && p.dateFormat.Some? && p.limit.Some?
    requires ValidClock(env.now)
    requires p.url == pre + "{month}" + post && NoBraces(pre) && NoBraces(post)
    requires env.now.month + p.limit.value - 1 <= 12
    requires forall mo :: 1 <= mo <= 12 ==>
               env.lib.httpUrl(pre + env.strftime(MonthStart(env.now.year, mo), p.dateFormat.value) + post).Some?
    ensures Enumerate(p, env, "month").Ok?
    ensures |Enumerate(p, env, "month").value| == Count(p.limit.value)
    ensures forall i :: 0 <= i < Count(p.limit.value) ==>
              Enumerate(p, env, "month").value[i] ==
              env.lib.httpUrl(pre + env.strftime(MonthStart(env.now.year, env.now.month + i), p.dateFormat.value) + post).value
  {
    var fmt := p.dateFormat.value;
    var n := Count(p.limit.value);
    var step := Stepper(MonthPager(fmt, "month"), env, p.url);
    assert Enumerate(p, env, "month") == Gather(step, n);
    forall i | 0 <= i < n
      ensures step(i) == Ok(env.lib.httpUrl(pre + env.strftime(MonthStart(env.now.year, env.now.month + i), fmt) + post).value)
    {
      assert 1 <= env.now.month + i <= 12;
      MonthStepRenders(env, p.url, pre, post, fmt, i);
    }
    GatherAllOk(step, n);
    GatherOkSteps(step, n, Gather(step, n).value);
  }

  /** One MONTH step on a `{month}` template, within the year. */
  lemma MonthStepRenders(env: Env, url: string, pre: string, post: string, fmt: string, i: nat)
    requires url == pre + "{month}" + post && NoBraces(pre) && NoBraces(post)
    requires env.now.month + i <= 12
    requires env.lib.httpUrl(pre + env.strftime(MonthStart(env.now.year, env.now.month + i), fmt) + post).Some?
    ensures Step(MonthPager(fmt, "month"), env, url, i) ==
            Ok(env.lib.httpUrl(pre + env.strftime(MonthStart(env.now.year, env.now.month + i), fmt) + post).value)
  {
    FormatOneField(pre, "month", post, env.strftime(MonthStart(env.now.year, env.now.month + i), fmt));
    assert pre + "{" + "month" + "}" + post == url;
  }
}
