/** The age filter `isPostInTimeRange` and the `TIME_FILTERS` table of
    services/redditMonitor.js. The wall clock is a parameter. */
module TimeRange {

  const Hour: int := 3600
  const Day: int := 86400
  const TwoDays: int := 172800
  const Week: int := 604800
  const Month: int := 2592000

  /** `isPostInTimeRange(post, timeFilter)` with `now` the current Unix time
      in seconds. An unrecognised filter behaves like "day". */
  function IsPostInTimeRange(created: int, now: int, timeFilter: string): bool {
    var age := now - created;
    match timeFilter
    case "hour" => age <= Hour
    case "day" => age <= Day
    case "yesterday" => Day < age <= TwoDays
    case "week" => age <= Week
    case "month" => age <= Month
    case _ => age <= Day
  }

  /** The five post-age values the bot offers. */
  predicate IsKnownAge(age: string) {
    age == "hour" || age == "day" || age == "yesterday" || age == "week" || age == "month"
  }

  /** `TIME_FILTERS[postAge] || 'day'`: the search window sent to the site.
      "yesterday" has no window of its own and searches the last day. */
  function SearchWindow(postAge: string): (w: string)
    ensures w == "hour" || w == "day" || w == "week" || w == "month"
    ensures postAge != "yesterday" && IsKnownAge(postAge) ==> w == postAge
    ensures !IsKnownAge(postAge) || postAge == "yesterday" ==> w == "day"
  {
    match postAge
    case "hour" => "hour"
    case "day" => "day"
    case "yesterday" => "day"
    case "week" => "week"
    case "month" => "month"
    case _ => "day"
  }

  /** Each filter's window, as an age range `now - created`. */
  lemma Thresholds(created: int, now: int)
    ensures IsPostInTimeRange(created, now, "hour") <==> now - created <= 3600
    ensures IsPostInTimeRange(created, now, "day") <==> now - created <= 86400
    ensures IsPostInTimeRange(created, now, "yesterday") <==> 86400 < now - created <= 172800
    ensures IsPostInTimeRange(created, now, "week") <==> now - created <= 604800
    ensures IsPostInTimeRange(created, now, "month") <==> now - created <= 2592000
  {
  }

  /** Any filter outside the five known values behaves exactly like "day". */
  lemma UnknownFilterIsDay(created: int, now: int, timeFilter: string)
    requires !IsKnownAge(timeFilter)
    ensures IsPostInTimeRange(created, now, timeFilter) == IsPostInTimeRange(created, now, "day")
  {
  }

  /** The windows are nested: hour within day within week within month, and
      "yesterday" lies inside the week but never overlaps "day". */
  lemma WindowsNested(created: int, now: int)
    ensures IsPostInTimeRange(created, now, "hour") ==> IsPostInTimeRange(created, now, "day")
    ensures IsPostInTimeRange(created, now, "day") ==> IsPostInTimeRange(created, now, "week")
    ensures IsPostInTimeRange(created, now, "week") ==> IsPostInTimeRange(created, now, "month")
    ensures IsPostInTimeRange(created, now, "yesterday") ==> IsPostInTimeRange(created, now, "week")
    ensures !(IsPostInTimeRange(created, now, "yesterday") && IsPostInTimeRange(created, now, "day"))
  {
  }

  /** A post stamped with the current time (what the page extractor does)
      passes every filter except "yesterday", which it never passes. */
  lemma FreshPostPasses(now: int, timeFilter: string)
    ensures IsPostInTimeRange(now, now, timeFilter) <==> timeFilter != "yesterday"
  {
  }

  /** The day boundary: exactly one day old is "day" and not "yesterday";
      one second older is "yesterday" and not "day". */
  lemma DayBoundary(now: int)
    ensures IsPostInTimeRange(now - 86400, now, "day") && !IsPostInTimeRange(now - 86400, now, "yesterday")
    ensures IsPostInTimeRange(now - 86401, now, "yesterday") && !IsPostInTimeRange(now - 86401, now, "day")
  {
  }
}
