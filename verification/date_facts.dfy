/** Properties of `standardize_date`: what each kind of phrase produces, and
    that the output is a fixed point. */
module DateFacts {
  import opened Wrappers
  import opened Strings
  import opened Numeric
  import opened Calendar
  import opened DateNormalizer

  /** Prefix facts shared by the relative-phrase lemmas. */
  lemma {:induction false} RelativeShape(n: nat, marker: string, rest: string)
    requires marker == MinutesAgo || marker == HoursAgo
    ensures Find(Render(n) + marker + rest, marker) == |Render(n)|
    ensures (Render(n) + marker + rest)[..|Render(n)|] == Render(n)
    ensures Contains(Render(n) + marker + rest, JustNow) <==> Contains(rest, JustNow)
    ensures Contains(Render(n) + marker + rest, MinutesAgo) <==> marker == MinutesAgo || Contains(rest, MinutesAgo)
  {
    var d := Render(n);
    assert forall i :: 0 <= i < |d| ==> IsDigit(d[i]);
    FindAfterHeadFree(d, marker, rest);
    assert d + marker + rest == (d + marker) + rest;
    ContainsPastHeadFree(d + marker, rest, JustNow);
    if marker == HoursAgo {
      ContainsPastHeadFree(d + marker, rest, MinutesAgo);
    } else {
      assert OccursAt(d + marker + rest, MinutesAgo, |d|);
    }
  }

  /** "N分钟..." is the date N minutes before `now`. */
  lemma MinutesAgoDate(n: nat, rest: string, now: nat)
    requires !Contains(rest, JustNow)
    ensures StandardizeDate(Render(n) + MinutesAgo + rest, now)
      == if n <= now then Success(FormatDate(DateAt(now - n))) else Failure(OverflowError)
  {
    var s := Render(n) + MinutesAgo + rest;
    RelativeShape(n, MinutesAgo, rest);
    ParseRender(n);
    assert Offset(s) == Success(n);
    RelativeStep(s, now);
  }

  /** "N小时..." is the date N hours before `now`. */
  lemma HoursAgoDate(n: nat, rest: string, now: nat)
    requires !Contains(rest, JustNow) && !Contains(rest, MinutesAgo)
    ensures StandardizeDate(Render(n) + HoursAgo + rest, now)
      == if n * 60 <= now then Success(FormatDate(DateAt(now - n * 60))) else Failure(OverflowError)
  {
    var s := Render(n) + HoursAgo + rest;
    RelativeShape(n, HoursAgo, rest);
    ParseRender(n);
    assert Offset(s) == Success(n * 60);
    RelativeStep(s, now);
  }

  /** 刚刚 wins over every other phrase: the date of `now` itself. */
  lemma JustNowDate(s: string, now: nat)
    requires Contains(s, JustNow)
    ensures StandardizeDate(s, now) == Success(FormatDate(DateAt(now)))
    ensures ParseDate(StandardizeDate(s, now).value) == Some(DateAt(now))
  {
    RelativeStep(s, now);
    assert DateBefore(now, 0) == Success(FormatDate(DateAt(now)));
    FormatDateRoundTrip(DateAt(now));
  }

  /** 昨天 is the date one day before `now`, whatever follows it. */
  lemma YesterdayDate(rest: string, now: nat)
    requires !Contains(rest, JustNow) && !Contains(rest, MinutesAgo) && !Contains(rest, HoursAgo)
    ensures StandardizeDate(Yesterday + rest, now)
      == if MinutesPerDay <= now then Success(FormatDate(DateAt(now - MinutesPerDay))) else Failure(OverflowError)
    ensures MinutesPerDay <= now ==> DayNumber(DateAt(now - MinutesPerDay)) + 1 == DayNumber(DateAt(now))
  {
    ContainsPastHeadFree(Yesterday, rest, JustNow);
    ContainsPastHeadFree(Yesterday, rest, MinutesAgo);
    ContainsPastHeadFree(Yesterday, rest, HoursAgo);
    assert OccursAt(Yesterday + rest, Yesterday, 0);
    assert Offset(Yesterday + rest) == Success(MinutesPerDay);
    RelativeStep(Yesterday + rest, now);
  }

  /** A month-day string ("MM-DD") gets the year of `now` in front: the
      output is a digit year equal to that of `now`, a dash, then the input. */
  lemma MonthDayGetsYear(s: string, now: nat)
    requires !HasMarker(s) && Count(s, '-') == 1
    ensures var out := StandardizeDate(s, now).value;
      var y := out[..|out| - |s| - 1];
      && StandardizeDate(s, now).Success?
      && |out| >= |s| + 5
      && out[|out| - |s|..] == s
      && out[|out| - |s| - 1] == '-'
      && IsDigits(y) && Value(y) == DateAt(now).year
  {
    var y := Padded(DateAt(now).year, 4);
    var out := y + "-" + s;
    assert out[..|out| - |s| - 1] == y;
    assert out[|out| - |s|..] == s;
  }

  /** Any other string without a relative phrase comes back unchanged. */
  lemma OtherUnchanged(s: string, now: nat)
    requires !HasMarker(s) && Count(s, '-') != 1
    ensures StandardizeDate(s, now) == Success(s)
  {
  }

  /** The characters of a formatted date or of a digit year carry no phrase. */
  lemma AsciiPrefixNoMarker(a: string, b: string)
    requires forall i :: 0 <= i < |a| ==> IsDigit(a[i]) || a[i] == '-'
    ensures HasMarker(a + b) <==> HasMarker(b)
  {
    ContainsPastHeadFree(a, b, JustNow);
    ContainsPastHeadFree(a, b, MinutesAgo);
    ContainsPastHeadFree(a, b, HoursAgo);
    ContainsPastHeadFree(a, b, Yesterday);
  }

  /** A string of digits and dashes carries no relative phrase. */
  lemma NoMarkerInDigits(a: string)
    requires forall i :: 0 <= i < |a| ==> IsDigit(a[i]) || a[i] == '-'
    ensures !HasMarker(a)
  {
    HeadFreeNotContains(a, JustNow);
    HeadFreeNotContains(a, MinutesAgo);
    HeadFreeNotContains(a, HoursAgo);
    HeadFreeNotContains(a, Yesterday);
  }

  /** A formatted date carries no relative phrase and exactly two dashes. */
  lemma {:induction false} FormatDateNoMarker(d: Date)
    requires ValidDate(d)
    ensures !HasMarker(FormatDate(d)) && Count(FormatDate(d), '-') == 2
  {
    FormatDateShape(d);
    NoMarkerInDigits(FormatDate(d));
  }

  /** A formatted date is a fixed point of `standardize_date`. */
  lemma {:induction false} FormattedDateFixed(d: Date, now: nat)
    requires ValidDate(d)
    ensures StandardizeDate(FormatDate(d), now) == Success(FormatDate(d))
  {
    FormatDateNoMarker(d);
    OtherUnchanged(FormatDate(d), now);
  }

  /** A year-prefixed month-day string is a fixed point: the digit year adds
      no phrase and a second dash. */
  lemma {:induction false} YearPrefixedFixed(s: string, now: nat)
    requires !HasMarker(s) && Count(s, '-') == 1
    ensures var out := Padded(DateAt(now).year, 4) + "-" + s;
      StandardizeDate(out, now) == Success(out)
  {
    var y := Padded(DateAt(now).year, 4);
    var out := y + "-" + s;
    assert !HasMarker(out) by {
      assert forall i :: 0 <= i < |y| ==> IsDigit(y[i]);
      assert forall i :: 0 <= i < |y + "-"| ==> IsDigit((y + "-")[i]) || (y + "-")[i] == '-';
      assert out == (y + "-") + s;
      AsciiPrefixNoMarker(y + "-", s);
    }
    assert Count(out, '-') == 2 by {
      NoDash(y);
      assert multiset(out) == multiset(y) + multiset("-") + multiset(s);
    }
    OtherUnchanged(out, now);
  }

  /** Applying `standardize_date` to its own successful output changes nothing. */
  lemma {:induction false} StandardizeDateIdempotent(s: string, now: nat)
    requires StandardizeDate(s, now).Success?
    ensures StandardizeDate(StandardizeDate(s, now).value, now) == StandardizeDate(s, now)
  {
    if HasMarker(s) {
      RelativeOutput(s, now);
      FormattedDateFixed(DateAt(now - Offset(s).value), now);
    } else if Count(s, '-') == 1 {
      YearPrefixedFixed(s, now);
    } else {
      OtherUnchanged(s, now);
    }
  }
}
