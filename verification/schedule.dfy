/**
 * The date and time scans of `extractBookingInfo` (server/bookingService.js lines 124-130):
 * the first weekday-led date phrase and the first `H[:MM] AM|PM` phrase of the summary, each
 * taken as the text it matched.
 */
module Schedule {
  import opened Optional
  import opened Chars
  import opened Scan
  import opened Clock

  /** A match found in `s` as seen from the slice `s[a..b]`: kept, shifted, when it fits. */
  function Restrict(r: Option<TimeMatch>, a: nat, b: nat): Option<TimeMatch> {
    match r
    case None => None
    case Some(m) => if a <= m.end <= b then Some(TimeMatch(m.hour, m.minute, m.period, m.end - a)) else None
  }

  /**
   * The period pattern behaves the same on the slice `x == s[a..b]`, read at the shifted index
   * `q`, as long as its match fits the slice.
   */
  lemma PeriodAtSlice(s: string, a: nat, b: nat, p: nat, x: string, q: nat)
    requires a <= p <= b <= |s| && x == s[a..b] && q == p - a
    ensures PeriodAt(s, p).None? ==> PeriodAt(x, q).None?
    ensures PeriodAt(s, p).Some? && PeriodAt(s, p).value.1 > b ==> PeriodAt(x, q).None?
    ensures PeriodAt(s, p).Some? && PeriodAt(s, p).value.1 <= b ==>
      PeriodAt(x, q) == Some((PeriodAt(s, p).value.0, PeriodAt(s, p).value.1 - a))
  {
    var e := RunEnd(s, p, Space);
    RunEndSlice(s, a, b, p, Space);
    if e + 2 <= b {
      CharShifted(s, a, b, e, x);
      CharShifted(s, a, b, e + 1, x);
    }
  }

  /** The character at `k` read through the slice `x == s[a..b]`. */
  lemma CharShifted(s: string, a: nat, b: nat, k: nat, x: string)
    requires a <= k < b <= |s| && x == s[a..b]
    ensures x[k - a] == s[k]
  {
  }

  /** `s[i..j]` read through the slice `x == s[a..b]` at the shifted bounds. */
  lemma SliceShifted(s: string, a: nat, b: nat, i: nat, j: nat, x: string, ix: nat, jx: nat)
    requires a <= i <= j <= b <= |s| && x == s[a..b] && ix == i - a && jx == j - a
    ensures x[ix..jx] == s[i..j]
  {
    SliceOfSlice(s, a, b, i, j);
  }

  lemma WithoutMinutesSlice(s: string, a: nat, b: nat, i: nat, h: nat, x: string, ix: nat, hx: nat)
    requires a <= i < h <= b <= |s| && x == s[a..b] && ix == i - a && hx == h - a
    ensures WithoutMinutes(x, ix, hx) == Restrict(WithoutMinutes(s, i, h), a, b)
  {
    SliceShifted(s, a, b, i, h, x, ix, hx);
    PeriodAtSlice(s, a, b, h, x, hx);
  }

  lemma MinuteDigitsSlice(s: string, a: nat, b: nat, h: nat, x: string, hx: nat)
    requires a <= h && h + 3 <= b <= |s| && x == s[a..b] && hx == h - a
    ensures MinuteDigitsAt(x, hx) == MinuteDigitsAt(s, h)
  {
    CharShifted(s, a, b, h, x);
    CharShifted(s, a, b, h + 1, x);
    CharShifted(s, a, b, h + 2, x);
  }

  lemma WithMinutesFound(s: string, i: nat, h: nat, per: Period, e: nat)
    requires i < h <= |s| && MinuteDigitsAt(s, h) && PeriodAt(s, h + 3) == Some((per, e))
    ensures WithMinutes(s, i, h) == Some(TimeMatch(s[i..h], Some(s[h + 1..h + 3]), per, e))
  {
  }

  /** The case of `WithMinutesSlice` where the minutes and the period fit the slice. */
  lemma WithMinutesSliceFits(s: string, a: nat, b: nat, i: nat, h: nat, per: Period, e: nat, x: string, ix: nat, hx: nat)
    requires a <= i < h && h + 3 <= b <= |s| && x == s[a..b] && ix == i - a && hx == h - a
    requires MinuteDigitsAt(s, h) && PeriodAt(s, h + 3) == Some((per, e)) && e <= b
    ensures WithMinutes(x, ix, hx) == Some(TimeMatch(s[i..h], Some(s[h + 1..h + 3]), per, e - a))
  {
    MinutesAndPeriodShifted(s, a, b, h, per, e, x, hx);
    SliceShifted(s, a, b, i, h, x, ix, hx);
    SliceShifted(s, a, b, h + 1, h + 3, x, hx + 1, hx + 3);
    WithMinutesFound(x, ix, hx, per, e - a);
  }

  /** The minutes and a period that fit the slice `x == s[a..b]` are read there, shifted. */
  lemma MinutesAndPeriodShifted(s: string, a: nat, b: nat, h: nat, per: Period, e: nat, x: string, hx: nat)
    requires a <= h && h + 3 <= b <= |s| && x == s[a..b] && hx == h - a
    requires MinuteDigitsAt(s, h) && PeriodAt(s, h + 3) == Some((per, e)) && e <= b
    ensures MinuteDigitsAt(x, hx) && PeriodAt(x, hx + 3) == Some((per, e - a))
  {
    MinuteDigitsSlice(s, a, b, h, x, hx);
    PeriodAtFits(s, a, b, h + 3, x, hx + 3, per, e);
  }

  /** The case of `WithMinutesSlice` where the slice holds the minutes but no period after them. */
  lemma WithMinutesSliceNoPeriod(s: string, a: nat, b: nat, i: nat, h: nat, x: string, ix: nat, hx: nat)
    requires a <= i < h && h + 3 <= b <= |s| && x == s[a..b] && ix == i - a && hx == h - a
    requires PeriodAt(s, h + 3).None? || PeriodAt(s, h + 3).value.1 > b
    ensures WithMinutes(x, ix, hx).None?
  {
    PeriodAtSlice(s, a, b, h + 3, x, hx + 3);
    WithMinutesNoPeriod(x, ix, hx);
  }

  /** Without a period after the minutes there is no match with minutes. */
  lemma WithMinutesNoPeriod(s: string, i: nat, h: nat)
    requires i < h <= |s| && (h + 3 <= |s| ==> PeriodAt(s, h + 3).None?)
    ensures WithMinutes(s, i, h).None?
  {
  }

  /** A period that fits the slice `x == s[a..b]` is read there, shifted. */
  lemma PeriodAtFits(s: string, a: nat, b: nat, p: nat, x: string, q: nat, per: Period, e: nat)
    requires a <= p <= b <= |s| && x == s[a..b] && q == p - a
    requires PeriodAt(s, p) == Some((per, e)) && e <= b
    ensures PeriodAt(x, q) == Some((per, e - a))
  {
    PeriodAtSlice(s, a, b, p, x, q);
  }

  lemma WithMinutesSlice(s: string, a: nat, b: nat, i: nat, h: nat, x: string, ix: nat, hx: nat)
    requires a <= i < h <= b <= |s| && x == s[a..b] && ix == i - a && hx == h - a
    ensures WithMinutes(x, ix, hx) == Restrict(WithMinutes(s, i, h), a, b)
  {
    if h + 3 <= b {
      if !MinuteDigitsAt(s, h) {
        MinuteDigitsSlice(s, a, b, h, x, hx);
      } else if PeriodAt(s, h + 3).Some? && PeriodAt(s, h + 3).value.1 <= b {
        var (per, e) := PeriodAt(s, h + 3).value;
        WithMinutesFound(s, i, h, per, e);
        WithMinutesSliceFits(s, a, b, i, h, per, e, x, ix, hx);
      } else {
        WithMinutesSliceNoPeriod(s, a, b, i, h, x, ix, hx);
      }
    } else {
      assert !MinuteDigitsAt(x, hx);
    }
  }

  /** A first alternative that fails stays failed on a slice; one that fits is kept. */
  lemma OrElseRestrict(sa: Option<TimeMatch>, sb: Option<TimeMatch>,
                       xa: Option<TimeMatch>, xb: Option<TimeMatch>, a: nat, b: nat)
    requires sa.None? ==> xa.None?
    requires sa.Some? && a <= sa.value.end <= b ==> xa == Restrict(sa, a, b)
    requires sb.None? ==> xb.None?
    requires sb.Some? && a <= sb.value.end <= b ==> xb == Restrict(sb, a, b)
    ensures sa.OrElse(sb).None? ==> xa.OrElse(xb).None?
    ensures sa.OrElse(sb).Some? && a <= sa.OrElse(sb).value.end <= b ==>
      xa.OrElse(xb) == Restrict(sa.OrElse(sb), a, b)
  {
  }

  /** The time pattern after the hour digits behaves the same on a slice that holds its match. */
  lemma AfterHourSlice(s: string, a: nat, b: nat, i: nat, h: nat, x: string, ix: nat, hx: nat)
    requires a <= i < h <= b <= |s| && x == s[a..b] && ix == i - a && hx == h - a
    ensures AfterHour(s, i, h).None? ==> AfterHour(x, ix, hx).None?
    ensures AfterHour(s, i, h).Some? && AfterHour(s, i, h).value.end <= b ==>
      AfterHour(x, ix, hx) == Restrict(AfterHour(s, i, h), a, b)
  {
    WithMinutesSlice(s, a, b, i, h, x, ix, hx);
    WithoutMinutesSlice(s, a, b, i, h, x, ix, hx);
    OrElseRestrict(WithMinutes(s, i, h), WithoutMinutes(s, i, h), WithMinutes(x, ix, hx), WithoutMinutes(x, ix, hx), a, b);
  }

  /** No match after the hour digits in the whole text: none in the slice either. */
  lemma AfterHourNoneSlice(s: string, a: nat, b: nat, i: nat, h: nat, x: string, ix: nat, hx: nat)
    requires a <= i < h <= b <= |s| && x == s[a..b] && ix == i - a && hx == h - a
    requires AfterHour(s, i, h).None?
    ensures AfterHour(x, ix, hx).None?
  {
    AfterHourSlice(s, a, b, i, h, x, ix, hx);
  }

  /** The hour digits at `i` and the character after them, seen through the slice `x == s[a..b]`. */
  lemma DigitsShifted(s: string, a: nat, b: nat, i: nat, x: string, ix: nat)
    requires a <= i < b <= |s| && x == s[a..b] && ix == i - a
    ensures ix < |x| && x[ix] == s[i]
    ensures ix + 1 < |x| <==> i + 1 < b
    ensures i + 1 < b ==> x[ix + 1] == s[i + 1]
  {
  }

  /** Two hour digits at `i` and a match with both: that match is the time pattern's. */
  lemma TimeAtTwoFound(s: string, i: nat)
    requires i + 1 < |s| && IsDigit(s[i]) && IsDigit(s[i + 1]) && AfterHour(s, i, i + 2).Some?
    ensures TimeAt(s, i) == AfterHour(s, i, i + 2)
  {
  }

  /** Two hour digits at `i` and no match with both: the time pattern falls back to one digit. */
  lemma TimeAtTwoFallback(s: string, i: nat)
    requires i + 1 < |s| && IsDigit(s[i]) && IsDigit(s[i + 1]) && AfterHour(s, i, i + 2).None?
    ensures TimeAt(s, i) == AfterHour(s, i, i + 1)
  {
  }

  /** The two-digit hour alternative, when it matches and fits the slice, is what the slice reads. */
  lemma TimeAtSliceTwoFirst(s: string, a: nat, b: nat, i: nat, x: string, ix: nat)
    requires a <= i && i + 1 < b <= |s| && IsDigit(s[i]) && IsDigit(s[i + 1])
    requires x == s[a..b] && ix == i - a
    requires AfterHour(s, i, i + 2).Some? && AfterHour(s, i, i + 2).value.end <= b
    ensures TimeAt(x, ix) == Restrict(TimeAt(s, i), a, b)
  {
    AfterHourSlice(s, a, b, i, i + 2, x, ix, ix + 2);
    DigitsShifted(s, a, b, i, x, ix);
    TimeAtTwoFound(s, i);
    TimeAtTwoFound(x, ix);
  }

  /** When the two-digit hour alternative fails, both sides fall back to the one-digit hour. */
  lemma TimeAtSliceTwoSecond(s: string, a: nat, b: nat, i: nat, x: string, ix: nat)
    requires a <= i && i + 1 < b <= |s| && IsDigit(s[i]) && IsDigit(s[i + 1])
    requires x == s[a..b] && ix == i - a
    requires AfterHour(s, i, i + 2).None?
    ensures TimeAt(s, i).None? ==> TimeAt(x, ix).None?
    ensures TimeAt(s, i).Some? && TimeAt(s, i).value.end <= b ==> TimeAt(x, ix) == Restrict(TimeAt(s, i), a, b)
  {
    TimeAtFallbackShifted(s, a, b, i, x, ix);
    TimeAtTwoFallback(s, i);
    AfterHourSlice(s, a, b, i, i + 1, x, ix, ix + 1);
  }

  /** A slice holding both hour digits falls back to one digit where the whole text does. */
  lemma TimeAtFallbackShifted(s: string, a: nat, b: nat, i: nat, x: string, ix: nat)
    requires a <= i && i + 1 < b <= |s| && IsDigit(s[i]) && IsDigit(s[i + 1])
    requires x == s[a..b] && ix == i - a
    requires AfterHour(s, i, i + 2).None?
    ensures TimeAt(x, ix) == AfterHour(x, ix, ix + 1)
  {
    DigitsShifted(s, a, b, i, x, ix);
    AfterHourNoneSlice(s, a, b, i, i + 2, x, ix, ix + 2);
    TimeAtTwoFallback(x, ix);
  }

  /**
   * `TimeAt` when the slice `x` holds two digits at `i`, read at the shifted index `ix`: both
   * sides try two digits, then one.
   */
  lemma TimeAtSliceTwo(s: string, a: nat, b: nat, i: nat, x: string, ix: nat)
    requires a <= i && i + 1 < b <= |s| && IsDigit(s[i]) && IsDigit(s[i + 1])
    requires x == s[a..b] && ix == i - a
    ensures TimeAt(s, i).None? ==> TimeAt(x, ix).None?
    ensures TimeAt(s, i).Some? && TimeAt(s, i).value.end <= b ==> TimeAt(x, ix) == Restrict(TimeAt(s, i), a, b)
  {
    var sa := AfterHour(s, i, i + 2);
    if sa.None? {
      TimeAtSliceTwoSecond(s, a, b, i, x, ix);
    } else if sa.value.end <= b {
      TimeAtSliceTwoFirst(s, a, b, i, x, ix);
    } else {
      TimeAtTwoFound(s, i);
    }
  }

  /** A slice that ends after the first hour digit reads a one-digit hour there. */
  lemma TimeAtOneShifted(s: string, a: nat, b: nat, i: nat, x: string, ix: nat)
    requires a <= i < b <= |s| && IsDigit(s[i]) && !(i + 1 < b && IsDigit(s[i + 1]))
    requires x == s[a..b] && ix == i - a
    ensures TimeAt(x, ix) == AfterHour(x, ix, ix + 1)
  {
    DigitsShifted(s, a, b, i, x, ix);
    TimeAtOne(x, ix);
  }

  /** `TimeAt` when the slice holds one digit at `i`: only a one-digit hour can fit. */
  lemma TimeAtSliceOne(s: string, a: nat, b: nat, i: nat, x: string, ix: nat)
    requires a <= i < b <= |s| && IsDigit(s[i]) && !(i + 1 < b && IsDigit(s[i + 1]))
    requires x == s[a..b] && ix == i - a
    ensures TimeAt(s, i).None? ==> TimeAt(x, ix).None?
    ensures TimeAt(s, i).Some? && TimeAt(s, i).value.end <= b ==> TimeAt(x, ix) == Restrict(TimeAt(s, i), a, b)
  {
    TimeAtOneShifted(s, a, b, i, x, ix);
    AfterHourSlice(s, a, b, i, i + 1, x, ix, ix + 1);
    if i + 1 < |s| && IsDigit(s[i + 1]) {
      if AfterHour(s, i, i + 2).Some? {
        TimeAtTwoFound(s, i);
      } else {
        TimeAtTwoFallback(s, i);
      }
    } else {
      TimeAtOne(s, i);
    }
  }

  /** The time pattern behaves the same on a slice that holds its match. */
  lemma TimeAtSlice(s: string, a: nat, b: nat, i: nat)
    requires a <= i <= b <= |s|
    ensures TimeAt(s, i).None? ==> TimeAt(s[a..b], i - a).None?
    ensures TimeAt(s, i).Some? && TimeAt(s, i).value.end <= b ==>
      TimeAt(s[a..b], i - a) == Restrict(TimeAt(s, i), a, b)
  {
    if i < b && IsDigit(s[i]) {
      if i + 1 < b && IsDigit(s[i + 1]) {
        TimeAtSliceTwo(s, a, b, i, s[a..b], i - a);
      } else {
        TimeAtSliceOne(s, a, b, i, s[a..b], i - a);
      }
    } else if i < b {
      assert s[a..b][i - a] == s[i];
    }
  }

  /** The time text of the booking: the first time phrase of the summary, as written. */
  function ExtractTime(summary: string): (r: Option<string>)
    ensures r.None? <==> FirstFrom(summary, 0, TimeAt).None?
    ensures r.Some? ==> |r.value| >= 3
  {
    match FirstFrom(summary, 0, TimeAt)
    case None => None
    case Some((i, m)) => Some(summary[i..m.end])
  }

  /** The kept time phrase is the leftmost one: from its first digit to the end of its period. */
  lemma ExtractTimeLeftmost(summary: string, i: nat)
    requires i <= |summary| && TimeAt(summary, i).Some?
    requires forall k :: 0 <= k < i ==> TimeAt(summary, k).None?
    ensures ExtractTime(summary) == Some(summary[i..TimeAt(summary, i).value.end])
  {
    FirstIsLeftmost(summary, i, TimeAt);
  }

  /**
   * The phrase the extractor keeps is the phrase the converter reads: converting it gives the
   * same clock text as converting the whole summary, so a stored time is always `HH:MM:00`.
   */
  lemma {:induction false} ExtractedTimeConverts(summary: string)
    requires ExtractTime(summary).Some?
    ensures ConvertTo24HourTime(ExtractTime(summary)) == ConvertTo24HourTime(Some(summary))
    ensures ParseClock(ConvertTo24HourTime(ExtractTime(summary)).value).Some?
    ensures FirstFrom(ExtractTime(summary).value, 0, TimeAt).Some?
  {
    var (i, m) := FirstFrom(summary, 0, TimeAt).value;
    var x := summary[i..m.end];
    var m' := TimeMatch(m.hour, m.minute, m.period, m.end - i);
    assert ExtractTime(summary) == Some(x) && |x| >= 3;
    TimeFromStart(summary, i, m, x);
    SameTimeSameClock(x, summary, 0, i, m', m);
  }

  /** Two texts whose first time phrases agree in hour, minutes and period convert alike. */
  lemma SameTimeSameClock(t: string, u: string, i: nat, j: nat, m: TimeMatch, n: TimeMatch)
    requires t != "" && u != "" && FirstFrom(t, 0, TimeAt) == Some((i, m)) && FirstFrom(u, 0, TimeAt) == Some((j, n))
    requires m.hour == n.hour && m.minute == n.minute && m.period == n.period
    ensures ConvertTo24HourTime(Some(t)) == ConvertTo24HourTime(Some(u))
    ensures ParseClock(ConvertTo24HourTime(Some(t)).value).Some?
  {
    ConvertAtMatch(t, i, m);
    ConvertAtMatch(u, j, n);
    SameFieldsSameText(m, n);
  }

  /** A text with a time phrase converts to the clock text of its first phrase. */
  lemma ConvertAtMatch(t: string, i: nat, m: TimeMatch)
    requires t != "" && FirstFrom(t, 0, TimeAt) == Some((i, m))
    ensures AllDigits(m.hour) && (m.minute.Some? ==> |m.minute.value| == 2 && AllDigits(m.minute.value))
    ensures ConvertTo24HourTime(Some(t)) == Some(ClockText(HourOf(m), MinuteText(m)))
  {
  }

  /** The hour and minutes written out depend only on the matched hour, minutes and period. */
  lemma SameFieldsSameText(m: TimeMatch, n: TimeMatch)
    requires AllDigits(m.hour) && (m.minute.Some? ==> |m.minute.value| == 2 && AllDigits(m.minute.value))
    requires m.hour == n.hour && m.minute == n.minute && m.period == n.period
    ensures HourOf(m) == HourOf(n) && MinuteText(m) == MinuteText(n)
  {
  }

  /** The text of a time match, taken on its own, is matched by the time pattern from its start. */
  lemma TimeFromStart(s: string, i: nat, m: TimeMatch, x: string)
    requires TimeAt(s, i) == Some(m) && x == s[i..m.end]
    ensures FirstFrom(x, 0, TimeAt) == Some((0, TimeMatch(m.hour, m.minute, m.period, m.end - i)))
  {
    TimeAtSlice(s, i, m.end, i);
    FirstIsLeftmost(x, 0, TimeAt);
  }

  /** The weekdays in the order of the date pattern's alternation. */
  const DateWeekdays: seq<string> :=
    ["thursday", "friday", "saturday", "sunday", "monday", "tuesday", "wednesday"]

  /** The first of `alts` (in order) found at `i`, case-insensitively, with the index after it. */
  function WordFrom(s: string, i: nat, alts: seq<string>): (r: Option<nat>)
    ensures r.Some? ==> exists k :: 0 <= k < |alts| && LitAt(s, i, alts[k], true) && r.value == i + |alts[k]|
    ensures r.None? ==> forall k :: 0 <= k < |alts| ==> !LitAt(s, i, alts[k], true)
    decreases |alts|
  {
    if |alts| == 0 then None
    else if LitAt(s, i, alts[0], true) then Some(i + |alts[0]|)
    else
      var r := WordFrom(s, i, alts[1..]);
      assert forall k :: 1 <= k < |alts| ==> alts[1..][k - 1] == alts[k];
      r
  }

  /** When exactly one alternative occurs at `i`, it is the one taken. */
  lemma WordFromOnly(s: string, i: nat, alts: seq<string>, k: nat)
    requires k < |alts| && LitAt(s, i, alts[k], true)
    requires forall j :: 0 <= j < |alts| && LitAt(s, i, alts[j], true) ==> j == k
    ensures WordFrom(s, i, alts) == Some(i + |alts[k]|)
  {
  }

  /** `,?` at `p`: a comma there has to be consumed, since what follows cannot match one. */
  function SkipComma(s: string, p: nat): (q: nat)
    ensures p <= q <= p + 1
  {
    if p < |s| && s[p] == ',' then p + 1 else p
  }

  /** `\d{4}` at `p`. */
  predicate YearAt(s: string, p: nat) {
    p + 4 <= |s| && forall k :: p <= k < p + 4 ==> IsDigit(s[k])
  }

  /** The ordinal suffixes, in the order of the alternation. */
  const Suffixes: seq<string> := ["st", "nd", "rd", "th"]

  /** `\d{1,2}` at `p`, given a digit there: a second digit is taken when there is one. */
  function DigitsEnd(s: string, p: nat): (d: nat)
    requires p < |s| && IsDigit(s[p])
    ensures p + 1 <= d <= p + 2 && d <= |s|
  {
    if p + 1 < |s| && IsDigit(s[p + 1]) then p + 2 else p + 1
  }

  /** `(?:st|nd|rd|th)?` at `d`: a suffix when one is there, else nothing. */
  function SuffixEnd(s: string, d: nat): (e: nat)
    requires d <= |s|
    ensures d <= e <= |s|
  {
    WordFrom(s, d, Suffixes).value_or(d)
  }

  /** `\d{1,2}(?:st|nd|rd|th)?` at `p`, with the index after it. */
  function DayEnd(s: string, p: nat): (r: Option<nat>)
    ensures r.Some? ==> p + 1 <= r.value <= |s|
  {
    if p < |s| && IsDigit(s[p]) then Some(SuffixEnd(s, DigitsEnd(s, p))) else None
  }

  /** `,?\s+\d{4}` after the day ending at `e`, with the end of the year. */
  function YearEnd(s: string, e: nat): (r: Option<nat>)
    ensures r.Some? ==> e + 5 <= r.value <= |s| && YearAt(s, r.value - 4)
  {
    var c := SkipComma(s, e);
    var y := RunEnd(s, c, Space);
    if y > c && YearAt(s, y) then Some(y + 4) else None
  }

  /** `,?\s+([A-Za-z]+\s+\d{1,2}(?:st|nd|rd|th)?,?\s+\d{4})` after the weekday ending at `w`. */
  function DateRestAt(s: string, w: nat): (r: Option<nat>)
    ensures r.Some? ==> w + 8 <= r.value <= |s| && YearAt(s, r.value - 4)
  {
    var sp := SkipComma(s, w);
    var m := RunEnd(s, sp, Space);
    var d := RunEnd(s, m, Letter);
    var g := RunEnd(s, d, Space);
    if m > sp && d > m && g > d then
      match DayEnd(s, g)
      case None => None
      case Some(e) => YearEnd(s, e)
    else None
  }

  /** The date pattern of line 125 at `i`: the end of its match. */
  function DateAt(s: string, i: nat): (r: Option<nat>)
    ensures r.Some? ==> i + 14 <= r.value <= |s| && YearAt(s, r.value - 4)
  {
    match WordFrom(s, i, DateWeekdays)
    case None => None
    case Some(w) =>
      assert w >= i + 6;
      DateRestAt(s, w)
  }

  /** The date text of the booking: the first weekday-led date phrase of the summary, as written. */
  function ExtractDate(summary: string): (r: Option<string>)
    ensures r.None? <==> FirstFrom(summary, 0, DateAt).None?
    ensures r.Some? ==> |r.value| >= 14 && YearAt(r.value, |r.value| - 4)
  {
    match FirstFrom(summary, 0, DateAt)
    case None => None
    case Some((i, e)) =>
      YearAtSlice(summary, i, e);
      Some(summary[i..e])
  }

  /** The kept date phrase is the leftmost one, up to the end of its year. */
  lemma ExtractDateLeftmost(summary: string, i: nat)
    requires i <= |summary| && DateAt(summary, i).Some?
    requires forall k :: 0 <= k < i ==> DateAt(summary, k).None?
    ensures ExtractDate(summary) == Some(summary[i..DateAt(summary, i).value])
  {
    FirstIsLeftmost(summary, i, DateAt);
  }

  lemma YearAtSlice(s: string, i: nat, e: nat)
    requires i + 4 <= e <= |s| && YearAt(s, e - 4)
    ensures YearAt(s[i..e], e - i - 4)
  {
    forall k | e - i - 4 <= k < e - i ensures IsDigit(s[i..e][k]) {
      assert s[i..e][k] == s[i + k];
    }
  }

  /** The date phrase the summaries carry, such as "Wednesday, February 25th, 2026". */
  function DatePhrase(weekday: string, month: string, day: string, suffix: string, year: string): string {
    weekday + ", " + month + " " + day + suffix + ", " + year
  }

  /** The shapes of the parts of a date phrase that the date pattern accepts. */
  predicate DateParts(weekday: string, month: string, day: string, suffix: string, year: string) {
    Lower(weekday) in DateWeekdays && |month| >= 1 && AllLetters(month)
    && 1 <= |day| <= 2 && AllDigits(day) && suffix in ["", "st", "nd", "rd", "th"]
    && |year| == 4 && AllDigits(year)
  }

  /** Two weekday alternatives that both match at one index are the same alternative. */
  lemma WeekdaysDistinct(s: string, i: nat, j: nat, k: nat)
    requires j < |DateWeekdays| && k < |DateWeekdays|
    requires LitAt(s, i, DateWeekdays[j], true) && LitAt(s, i, DateWeekdays[k], true)
    ensures j == k
  {
    var a, b := DateWeekdays[j], DateWeekdays[k];
    WeekdayLength(j);
    WeekdayLength(k);
    assert Fold(a[0]) == Fold(b[0]) by {
      LitAtChar(s, i, a, true, 0);
      LitAtChar(s, i, b, true, 0);
    }
    assert Fold(a[1]) == Fold(b[1]) by {
      LitAtChar(s, i, a, true, 1);
      LitAtChar(s, i, b, true, 1);
    }
    WeekdayKeys(j, k);
  }

  /** Every weekday alternative is at least six letters long. */
  lemma WeekdayLength(j: nat)
    requires j < |DateWeekdays|
    ensures |DateWeekdays[j]| >= 6
  {
  }

  /** The weekday alternatives differ in their first two letters, whatever their case. */
  lemma WeekdayKeys(j: nat, k: nat)
    requires j < |DateWeekdays| && k < |DateWeekdays|
    requires Fold(DateWeekdays[j][0]) == Fold(DateWeekdays[k][0])
    requires Fold(DateWeekdays[j][1]) == Fold(DateWeekdays[k][1])
    ensures j == k
  {
  }

  /** A text that begins with `w` holds the lower-case form of `w` there, under the `i` flag. */
  lemma LowerPrefixLit(s: string, w: string)
    requires |w| <= |s| && s[..|w|] == w
    ensures LitAt(s, 0, Lower(w), true)
  {
    var alt := Lower(w);
    forall n | 0 <= n < |alt| ensures SameChar(s[n], alt[n], true) {
      assert s[n] == w[n];
    }
  }

  /** A weekday, in any letter case, is found whole at the start of a text that begins with it. */
  lemma WeekdayFound(s: string, weekday: string)
    requires Lower(weekday) in DateWeekdays && |weekday| <= |s| && s[..|weekday|] == weekday
    ensures WordFrom(s, 0, DateWeekdays) == Some(|weekday|)
  {
    var k :| 0 <= k < |DateWeekdays| && DateWeekdays[k] == Lower(weekday);
    LowerPrefixLit(s, weekday);
    forall j | 0 <= j < |DateWeekdays| && LitAt(s, 0, DateWeekdays[j], true) ensures j == k {
      WeekdaysDistinct(s, 0, j, k);
    }
    WordFromOnly(s, 0, DateWeekdays, k);
  }

  /** `p` holds the parts of a date phrase at their places. */
  predicate Laid(p: string, weekday: string, month: string, day: string, suffix: string, year: string) {
    var w := |weekday|;
    var m0 := w + 2;
    var d0 := m0 + |month| + 1;
    var x0 := d0 + |day|;
    var y0 := x0 + |suffix| + 2;
    |p| == y0 + |year| && p[..w] == weekday && p[w] == ',' && p[w + 1] == ' '
    && (forall n {:trigger month[n]} :: 0 <= n < |month| ==> p[m0 + n] == month[n]) && p[m0 + |month|] == ' '
    && (forall n {:trigger day[n]} :: 0 <= n < |day| ==> p[d0 + n] == day[n])
    && (forall n {:trigger suffix[n]} :: 0 <= n < |suffix| ==> p[x0 + n] == suffix[n])
    && p[y0 - 2] == ',' && p[y0 - 1] == ' '
    && (forall n {:trigger year[n]} :: 0 <= n < |year| ==> p[y0 + n] == year[n])
  }

  /** Where each part of a date phrase sits. */
  lemma DatePhraseLayout(weekday: string, month: string, day: string, suffix: string, year: string)
    ensures Laid(DatePhrase(weekday, month, day, suffix, year), weekday, month, day, suffix, year)
  {
  }

  /** The optional ordinal suffix is read whole, and nothing is read when there is none. */
  lemma SuffixFound(p: string, x0: nat, suffix: string)
    requires suffix in ["", "st", "nd", "rd", "th"]
    requires x0 + |suffix| < |p| && p[x0..x0 + |suffix|] == suffix && p[x0 + |suffix|] == ','
    ensures SuffixEnd(p, x0) == x0 + |suffix|
  {
    if suffix == "" {
      assert p[x0] == ',';
    } else {
      assert p[x0] == suffix[0] && p[x0 + 1] == suffix[1];
    }
  }

  /** The month word is one greedy run of letters, and the spaces around it are runs too. */
  lemma MonthRuns(p: string, weekday: string, month: string, day: string, suffix: string, year: string, w: nat, me: nat)
    requires DateParts(weekday, month, day, suffix, year) && Laid(p, weekday, month, day, suffix, year)
    requires w == |weekday| && me == w + 2 + |month|
    ensures SkipComma(p, w) == w + 1 && RunEnd(p, w + 1, Space) == w + 2
      && RunEnd(p, w + 2, Letter) == me && RunEnd(p, me, Space) == me + 1
  {
    var m0 := w + 2;
    assert p[m0] == month[0];
    RunEndAt(p, |weekday| + 1, m0, Space);
    forall n | m0 <= n < me ensures InClass(p[n], Letter) {
      assert p[m0 + (n - m0)] == month[n - m0];
    }
    RunEndAt(p, m0, me, Letter);
    assert p[me + 1] == day[0];
    RunEndAt(p, me, me + 1, Space);
  }

  /** The day and its suffix are read whole. */
  lemma DayRead(p: string, weekday: string, month: string, day: string, suffix: string, year: string, d0: nat, xe: nat)
    requires DateParts(weekday, month, day, suffix, year) && Laid(p, weekday, month, day, suffix, year)
    requires d0 == |weekday| + |month| + 3 && xe == d0 + |day| + |suffix|
    ensures DayEnd(p, d0) == Some(xe)
  {
    var x0 := d0 + |day|;
    assert p[d0] == day[0];
    assert DigitsEnd(p, d0) == x0 by {
      if |day| == 2 {
        assert p[d0 + 1] == day[1];
      } else if |suffix| > 0 {
        assert p[d0 + 1] == suffix[0];
      } else {
        assert p[d0 + 1] == ',';
      }
    }
    assert SuffixEnd(p, x0) == xe by {
      assert p[x0..xe] == suffix by {
        forall n | 0 <= n < |suffix| ensures p[x0..xe][n] == suffix[n] {
          assert p[x0 + n] == suffix[n];
        }
      }
      SuffixFound(p, x0, suffix);
    }
  }

  /** The year of a date phrase sits after its comma and space, and closes the phrase. */
  lemma YearLaid(p: string, weekday: string, month: string, day: string, suffix: string, year: string, xe: nat)
    requires DateParts(weekday, month, day, suffix, year) && Laid(p, weekday, month, day, suffix, year)
    requires xe == |weekday| + |month| + |day| + |suffix| + 3
    ensures xe + 6 == |p| && p[xe] == ',' && p[xe + 1] == ' '
    ensures forall n :: xe + 2 <= n < xe + 6 ==> IsDigit(p[n])
  {
    var y0 := xe + 2;
    forall n | y0 <= n < y0 + 4 ensures IsDigit(p[n]) {
      assert p[y0 + (n - y0)] == year[n - y0];
    }
  }

  /** The year is read after its comma and space. */
  lemma YearRead(p: string, xe: nat)
    requires xe + 6 == |p| && p[xe] == ',' && p[xe + 1] == ' '
    requires forall n :: xe + 2 <= n < xe + 6 ==> IsDigit(p[n])
    ensures YearEnd(p, xe) == Some(|p|)
  {
    RunEndAt(p, xe + 1, xe + 2, Space);
  }

  /** What follows the weekday, read step by step: comma, spaces, month, spaces, day, year. */
  lemma RestSteps(p: string, w: nat, m0: nat, d: nat, g: nat, xe: nat)
    requires SkipComma(p, w) == w + 1
    requires RunEnd(p, w + 1, Space) == m0 && m0 > w + 1
    requires RunEnd(p, m0, Letter) == d && d > m0 && RunEnd(p, d, Space) == g && g > d
    requires DayEnd(p, g) == Some(xe) && YearEnd(p, xe) == Some(xe + 6)
    ensures DateRestAt(p, w) == Some(xe + 6)
  {
    var sp := SkipComma(p, w);
    assert sp == w + 1;
    var m := RunEnd(p, sp, Space);
    assert m == m0;
    assert RunEnd(p, m, Letter) == d;
    assert RunEnd(p, d, Space) == g;
  }

  /** The date pattern at the start: the weekday, then the rest of the phrase. */
  lemma StepsMatch(p: string, w: nat)
    requires WordFrom(p, 0, DateWeekdays) == Some(w) && DateRestAt(p, w) == Some(|p|)
    ensures DateAt(p, 0) == Some(|p|)
  {
  }

  /** After the weekday, the rest of a laid-out date phrase is matched to its end. */
  lemma LaidRest(p: string, weekday: string, month: string, day: string, suffix: string, year: string,
                 w: nat, me: nat, xe: nat)
    requires DateParts(weekday, month, day, suffix, year) && Laid(p, weekday, month, day, suffix, year)
    requires w == |weekday| && me == w + 2 + |month| && xe == me + 1 + |day| + |suffix|
    ensures DateRestAt(p, w) == Some(|p|)
  {
    var d0 := me + 1;
    MonthRuns(p, weekday, month, day, suffix, year, w, me);
    DayRead(p, weekday, month, day, suffix, year, d0, xe);
    YearLaid(p, weekday, month, day, suffix, year, xe);
    RestRead(p, w, me, d0, xe);
  }

  /** The rest of a date phrase, from facts about each of its steps. */
  lemma RestRead(p: string, w: nat, me: nat, d0: nat, xe: nat)
    requires SkipComma(p, w) == w + 1 && RunEnd(p, w + 1, Space) == w + 2
    requires RunEnd(p, w + 2, Letter) == me && me > w + 2 && RunEnd(p, me, Space) == d0 && d0 == me + 1
    requires DayEnd(p, d0) == Some(xe)
    requires xe + 6 == |p| && p[xe] == ',' && p[xe + 1] == ' '
    requires forall n :: xe + 2 <= n < xe + 6 ==> IsDigit(p[n])
    ensures DateRestAt(p, w) == Some(|p|)
  {
    YearRead(p, xe);
    RestSteps(p, w, w + 2, me, d0, xe);
  }

  /** The weekday of a laid-out date phrase is found whole. */
  lemma LaidWeekday(p: string, weekday: string, month: string, day: string, suffix: string, year: string)
    requires DateParts(weekday, month, day, suffix, year) && Laid(p, weekday, month, day, suffix, year)
    ensures WordFrom(p, 0, DateWeekdays) == Some(|weekday|)
  {
    WeekdayFound(p, weekday);
  }

  /** A text laid out as a date phrase is matched whole by the date pattern. */
  lemma LaidMatches(p: string, weekday: string, month: string, day: string, suffix: string, year: string)
    requires DateParts(weekday, month, day, suffix, year) && Laid(p, weekday, month, day, suffix, year)
    ensures DateAt(p, 0) == Some(|p|)
  {
    var w := |weekday|;
    LaidRest(p, weekday, month, day, suffix, year, w, w + 2 + |month|, w + 3 + |month| + |day| + |suffix|);
    LaidWeekday(p, weekday, month, day, suffix, year);
    StepsMatch(p, w);
  }

  /**
   * Every date phrase of the usual shape is matched whole by the date pattern, whatever the
   * case of its weekday, the month word, a one- or two-digit day with or without its ordinal
   * suffix, and a four-digit year.
   */
  lemma DatePhraseMatches(weekday: string, month: string, day: string, suffix: string, year: string)
    requires DateParts(weekday, month, day, suffix, year)
    ensures var p := DatePhrase(weekday, month, day, suffix, year);
      DateAt(p, 0) == Some(|p|) && ExtractDate(p) == Some(p)
  {
    var p := DatePhrase(weekday, month, day, suffix, year);
    DatePhraseLayout(weekday, month, day, suffix, year);
    LaidMatches(p, weekday, month, day, suffix, year);
    assert p[0..|p|] == p;
  }
}
