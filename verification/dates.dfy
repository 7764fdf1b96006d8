/** Post timestamps (`standardize_date`).  The platform shows recent posts
    with relative phrases -- 刚刚 "just now", N分钟 "N minutes ago", N小时
    "N hours ago", 昨天 "yesterday" -- and older ones as "MM-DD" or as a full
    date.  The clock reading `datetime.now()` is the parameter `now`, in
    minutes since 0001-01-01 00:00. */
module DateNormalizer {
  import opened Wrappers
  import opened Strings
  import opened Numeric
  import opened Calendar

  const JustNow: string := "\U{521A}\U{521A}"
  const MinutesAgo: string := "\U{5206}\U{949F}"
  const HoursAgo: string := "\U{5C0F}\U{65F6}"
  const Yesterday: string := "\U{6628}\U{5929}"

  /** The calendar date of instant `t`. */
  function DateAt(t: nat): (d: Date)
    ensures ValidDate(d) && DayNumber(d) == t / MinutesPerDay
  {
    FromDayNumber(t / MinutesPerDay)
  }

  /** `out` reads back as a valid date no later than the date of `now`. */
  predicate DateNoLaterThan(out: string, now: nat) {
    && ParseDate(out).Some?
    && ValidDate(ParseDate(out).value)
    && DayNumber(ParseDate(out).value) <= DayNumber(DateAt(now))
  }

  /** `(now - timedelta(minutes=delta)).strftime("%Y-%m-%d")`: the date of the
      instant `delta` minutes before `now`, which is never a later day than
      that of `now`; going below `datetime.min` raises OverflowError. */
  function DateBefore(now: nat, delta: int): (r: Result<string>)
    requires delta >= 0
    ensures r.Failure? <==> delta > now
    ensures r.Failure? ==> r.error == OverflowError
    ensures r.Success? ==> ParseDate(r.value) == Some(DateAt(now - delta)) && DateNoLaterThan(r.value, now)
  {
    if delta > now then Failure(OverflowError)
    else
      FormatDateRoundTrip(DateAt(now - delta));
      DivMonotone(now - delta, now);
      Success(FormatDate(DateAt(now - delta)))
  }

  lemma DivMonotone(a: nat, b: nat)
    requires a <= b
    ensures a / MinutesPerDay <= b / MinutesPerDay
  {
  }

  predicate HasMarker(s: string) {
    Contains(s, JustNow) || Contains(s, MinutesAgo) || Contains(s, HoursAgo) || Contains(s, Yesterday)
  }

  /** How far before `now` a relative phrase points, in minutes, checking the
      phrases in the order 刚刚, 分钟, 小时, 昨天.  The count in front of
      分钟 or 小时 is everything before the first occurrence of the phrase and
      must be read by `int()`. */
  function Offset(s: string): (r: Result<nat>)
    requires HasMarker(s)
    ensures r.Failure? ==> r.error == ValueError
  {
    if Contains(s, JustNow) then Success(0)
    else if Contains(s, MinutesAgo) then
      var n :- ParseInt(s[..Find(s, MinutesAgo)]);
      Success(n)
    else if Contains(s, HoursAgo) then
      var n :- ParseInt(s[..Find(s, HoursAgo)]);
      Success(n * 60)
    else Success(MinutesPerDay)
  }

  /** `standardize_date(created_at)` with `datetime.now()` read as `now`.
      刚刚 formats `now` itself, which is the offset 0. */
  function StandardizeDate(s: string, now: nat): (r: Result<string>)
    ensures r.Failure? ==> HasMarker(s) && (r.error == ValueError || r.error == OverflowError)
    ensures !HasMarker(s) ==> r.Success? && |s| <= |r.value|
    ensures HasMarker(s) && r.Success? ==> DateNoLaterThan(r.value, now)
  {
    if HasMarker(s) then
      var delta :- Offset(s);
      DateBefore(now, delta)
    else if Count(s, '-') == 1 then Success(Padded(DateAt(now).year, 4) + "-" + s)
    else Success(s)
  }

  /** Unfolds one step of `StandardizeDate` on a relative phrase. */
  lemma RelativeStep(s: string, now: nat)
    requires HasMarker(s)
    ensures Offset(s).Failure? ==> StandardizeDate(s, now) == Failure(Offset(s).error)
    ensures Offset(s).Success? ==> StandardizeDate(s, now) == DateBefore(now, Offset(s).value)
  {
  }

  /** A relative phrase succeeds exactly when its offset is readable and
      does not reach below `datetime.min`. */
  lemma RelativeSuccess(s: string, now: nat)
    requires HasMarker(s)
    ensures StandardizeDate(s, now).Success? <==> Offset(s).Success? && Offset(s).value <= now
    ensures StandardizeDate(s, now).Success? ==>
      StandardizeDate(s, now).value == FormatDate(DateAt(now - Offset(s).value))
  {
    RelativeStep(s, now);
  }

  /** The output of a successful relative phrase, read off its offset. */
  lemma RelativeOutput(s: string, now: nat)
    requires HasMarker(s) && StandardizeDate(s, now).Success?
    ensures Offset(s).Success? && Offset(s).value <= now
    ensures StandardizeDate(s, now).value == FormatDate(DateAt(now - Offset(s).value))
  {
    RelativeSuccess(s, now);
  }
}
