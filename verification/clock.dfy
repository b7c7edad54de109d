/**
 * `convertTo24HourTime` (server/bookingService.js): turns an `H[:MM] AM|PM` phrase into
 * `HH:MM:00`, and passes any text without such a phrase through unchanged.
 */
module Clock {
  import opened Optional
  import opened Chars
  import opened Decimal
  import opened Scan

  datatype Period = AM | PM

  /** A match of `(\d{1,2})(?::(\d{2}))?\s*(AM|PM)` under the `i` flag: the groups and the end. */
  datatype TimeMatch = TimeMatch(hour: string, minute: Option<string>, period: Period, end: nat)

  /** A time of day as read back from `HH:MM:SS` text. */
  datatype ClockTime = ClockTime(hours: nat, minutes: nat, seconds: nat)

  /** The match ending at `e` ends in a period: its second-to-last character is a letter. */
  predicate LetterBefore(s: string, e: nat) {
    2 <= e <= |s| && IsLetter(s[e - 2])
  }

  /**
   * `AM|PM` under the `i` flag at `q`: a character that folds to `a` or `p`, then one that
   * folds to `m`.
   */
  function PeriodLetters(s: string, q: nat): (r: Option<Period>)
    ensures r.Some? ==> q + 2 <= |s| && IsLetter(s[q]) && Fold(s[q + 1]) == 'm'
    ensures r.Some? ==> Fold(s[q]) == (if r.value == AM then 'a' else 'p')
    ensures r.None? && q + 2 <= |s| && Fold(s[q + 1]) == 'm' ==> Fold(s[q]) != 'a' && Fold(s[q]) != 'p'
  {
    if q + 2 <= |s| && Fold(s[q + 1]) == 'm' then
      if Fold(s[q]) == 'a' then Some(AM)
      else if Fold(s[q]) == 'p' then Some(PM)
      else None
    else None
  }

  /** `\s*(AM|PM)` at `p`: the period and the end of the match. */
  function PeriodAt(s: string, p: nat): (r: Option<(Period, nat)>)
    ensures r.Some? ==> p + 2 <= r.value.1 <= |s|
    ensures r.Some? ==> IsLetter(s[r.value.1 - 2]) && LetterBefore(s, r.value.1)
  {
    var q := RunEnd(s, p, Space);
    match PeriodLetters(s, q)
    case Some(per) => Some((per, q + 2))
    case None => None
  }

  /**
   * The period is read after white space only, from the letters `am` or `pm` in either case;
   * there is none exactly when no such pair follows a stretch of white space from `p`.
   */
  lemma PeriodAtMeans(s: string, p: nat)
    ensures PeriodAt(s, p).Some? ==>
      var (per, e) := PeriodAt(s, p).value;
      p + 2 <= e <= |s| && (forall k :: p <= k < e - 2 ==> IsSpace(s[k]))
      && Fold(s[e - 2]) == (if per == AM then 'a' else 'p') && Fold(s[e - 1]) == 'm'
    ensures PeriodAt(s, p).None? ==>
      forall q :: p <= q && q + 2 <= |s| && (forall k :: p <= k < q ==> IsSpace(s[k])) ==>
        !((Fold(s[q]) == 'a' || Fold(s[q]) == 'p') && Fold(s[q + 1]) == 'm')
  {
    forall q | p <= q && q + 2 <= |s| && (forall k :: p <= k < q ==> IsSpace(s[k]))
      ensures (Fold(s[q]) == 'a' || Fold(s[q]) == 'p') && Fold(s[q + 1]) == 'm' ==> PeriodAt(s, p).Some?
    {
      PeriodLettersFound(s, p, q);
    }
  }

  /** Period letters after a stretch of white space from `p` are found by the period pattern. */
  lemma PeriodLettersFound(s: string, p: nat, q: nat)
    requires p <= q && q + 2 <= |s| && (forall k :: p <= k < q ==> IsSpace(s[k]))
    ensures (Fold(s[q]) == 'a' || Fold(s[q]) == 'p') && Fold(s[q + 1]) == 'm' ==> PeriodAt(s, p).Some?
  {
    if (Fold(s[q]) == 'a' || Fold(s[q]) == 'p') && Fold(s[q + 1]) == 'm' {
      WithinRun(s, p, q, Space);
      assert IsLetter(s[q]);
      LetterNotSpace(s[q]);
      assert RunEnd(s, p, Space) == q;
    }
  }

  /** `:\d{2}` at `h`. */
  predicate MinuteDigitsAt(s: string, h: nat) {
    h + 2 < |s| && s[h] == ':' && IsDigit(s[h + 1]) && IsDigit(s[h + 2])
  }

  /** `:(\d{2})\s*(AM|PM)` after the hour digits `s[i..h]`. */
  function WithMinutes(s: string, i: nat, h: nat): (r: Option<TimeMatch>)
    requires i < h <= |s|
    ensures r.Some? ==> r.value.hour == s[i..h] && h + 5 <= r.value.end <= |s|
    ensures r.Some? ==> LetterBefore(s, r.value.end)
    ensures r.Some? ==>
      r.value.minute == Some(s[h + 1..h + 3]) && s[h] == ':' && AllDigits(r.value.minute.value)
  {
    if MinuteDigitsAt(s, h) then
      match PeriodAt(s, h + 3)
      case Some((p, e)) => Some(TimeMatch(s[i..h], Some(s[h + 1..h + 3]), p, e))
      case None => None
    else None
  }

  /** `\s*(AM|PM)` straight after the hour digits `s[i..h]`. */
  function WithoutMinutes(s: string, i: nat, h: nat): (r: Option<TimeMatch>)
    requires i < h <= |s|
    ensures r.Some? ==> r.value.hour == s[i..h] && h + 2 <= r.value.end <= |s|
    ensures r.Some? ==> LetterBefore(s, r.value.end) && r.value.minute.None?
  {
    match PeriodAt(s, h)
    case Some((p, e)) => Some(TimeMatch(s[i..h], None, p, e))
    case None => None
  }

  /** The rest of the time pattern once the hour digits `s[i..h]` are taken. */
  function AfterHour(s: string, i: nat, h: nat): (r: Option<TimeMatch>)
    requires i < h <= |s|
    ensures r.Some? ==> r.value.hour == s[i..h] && h + 2 <= r.value.end <= |s|
    ensures r.Some? ==> LetterBefore(s, r.value.end)
    ensures r.Some? && r.value.minute.Some? ==>
      h + 3 < |s| && s[h] == ':' && r.value.minute.value == s[h + 1..h + 3]
      && AllDigits(r.value.minute.value)
  {
    // (?::(\d{2}))? is greedy: the minutes are tried first.
    WithMinutes(s, i, h).OrElse(WithoutMinutes(s, i, h))
  }

  /** The time pattern at `i` with the `w` hour digits `s[i..i + w]`. */
  function HourDigitsAt(s: string, i: nat, w: nat): (r: Option<TimeMatch>)
    requires 1 <= w && i + w <= |s| && forall k :: i <= k < i + w ==> IsDigit(s[k])
    ensures r.Some? ==> r.value.hour == s[i..i + w] && |r.value.hour| == w && AllDigits(r.value.hour)
    ensures r.Some? ==> i + w + 2 <= r.value.end <= |s| && LetterBefore(s, r.value.end)
    ensures r.Some? && r.value.minute.Some? ==>
      |r.value.minute.value| == 2 && AllDigits(r.value.minute.value)
  {
    AfterHour(s, i, i + w)
  }

  /** `(\d{1,2})(?::(\d{2}))?\s*(AM|PM)` with the `i` flag, matched at `i`. */
  function TimeAt(s: string, i: nat): (r: Option<TimeMatch>)
    ensures r.Some? ==> i < |s| && 1 <= |r.value.hour| <= 2 && AllDigits(r.value.hour)
    ensures r.Some? ==> i + |r.value.hour| + 2 <= r.value.end <= |s| && LetterBefore(s, r.value.end)
    ensures r.Some? ==> r.value.hour == s[i..i + |r.value.hour|]
    ensures r.Some? && r.value.minute.Some? ==>
      |r.value.minute.value| == 2 && AllDigits(r.value.minute.value)
  {
    if i < |s| && IsDigit(s[i]) then
      // \d{1,2} is greedy: two digits first, then one.
      if i + 1 < |s| && IsDigit(s[i + 1]) && HourDigitsAt(s, i, 2).Some? then HourDigitsAt(s, i, 2)
      else HourDigitsAt(s, i, 1)
    else None
  }

  /** Two hour digits at `i`: the two-digit hour is tried first, then the one-digit hour. */
  lemma TimeAtTwo(s: string, i: nat)
    requires i + 1 < |s| && IsDigit(s[i]) && IsDigit(s[i + 1])
    ensures TimeAt(s, i) == AfterHour(s, i, i + 2).OrElse(AfterHour(s, i, i + 1))
  {
  }

  /** One hour digit at `i`: only the one-digit hour is tried. */
  lemma TimeAtOne(s: string, i: nat)
    requires i < |s| && IsDigit(s[i]) && !(i + 1 < |s| && IsDigit(s[i + 1]))
    ensures TimeAt(s, i) == AfterHour(s, i, i + 1)
  {
  }

  /** The 12-hour to 24-hour rule: 12 AM is hour 0, 12 PM stays 12, other PM hours gain 12. */
  function To24(h: nat, p: Period): (r: nat)
    ensures 1 <= h <= 12 ==> r < 24 && From24(r) == (h, p)
    ensures h != 12 ==> r == h + (if p == PM then 12 else 0)
  {
    match p
    case PM => if h != 12 then h + 12 else h
    case AM => if h == 12 then 0 else h
  }

  /** The 12-hour reading of a 24-hour hour: the inverse of `To24` on hours 1 to 12. */
  function From24(hour: nat): (nat, Period)
    requires hour < 24
  {
    if hour == 0 then (12, AM)
    else if hour < 12 then (hour, AM)
    else if hour == 12 then (12, PM)
    else (hour - 12, PM)
  }

  /** Every hour of the day is reached from exactly one 12-hour reading. */
  lemma To24Onto(hour: nat)
    requires hour < 24
    ensures To24(From24(hour).0, From24(hour).1) == hour
  {
  }

  /** Text of the shape `H…H:MM:SS`, read back into its numbers. */
  function ParseClock(x: string): (r: Option<ClockTime>)
    ensures r.Some? ==> |x| >= 7 && x[|x| - 3] == ':' && x[|x| - 6] == ':'
  {
    if |x| >= 7 && x[|x| - 3] == ':' && x[|x| - 6] == ':'
       && AllDigits(x[..|x| - 6]) && AllDigits(x[|x| - 5..|x| - 3]) && AllDigits(x[|x| - 2..])
    then Some(ClockTime(ParseDigits(x[..|x| - 6]), ParseDigits(x[|x| - 5..|x| - 3]), ParseDigits(x[|x| - 2..])))
    else None
  }

  /** Text made only of digits and colons. */
  predicate DigitsAndColons(x: string) {
    forall k :: 0 <= k < |x| ==> IsDigit(x[k]) || x[k] == ':'
  }

  /** Reading back text joined from an hour field, two-digit minutes and `00` seconds. */
  lemma ParseJoined(h: string, mm: string)
    requires |h| >= 1 && AllDigits(h) && |mm| == 2 && AllDigits(mm)
    ensures ParseClock(h + ":" + mm + ":00") == Some(ClockTime(ParseDigits(h), ParseDigits(mm), 0))
  {
    var x := h + ":" + mm + ":00";
    var n := |h|;
    assert |x| == n + 6 && x[n] == ':' && x[n + 3] == ':';
    assert x[..n] == h;
    assert x[n + 1..n + 3] == mm;
    assert x[n + 4..] == "00";
    assert ParseDigits("00") == 0 by {
      assert "00"[..1] == "0";
      assert "0"[..0] == "";
    }
  }

  /**
   * `x` is clock text for the given hour and minute: digits and colons that read back as them,
   * `00` seconds, and an hour field of exactly two digits below 100 and without a leading zero
   * from 10 on.
   */
  predicate ClockTextOf(x: string, hours: nat, minutes: nat) {
    |x| >= 8 && DigitsAndColons(x) && x[|x| - 3..] == ":00"
    && ParseClock(x) == Some(ClockTime(hours, minutes, 0))
    && (hours < 100 ==> |x| == 8)
    && (hours >= 10 ==> x[0] != '0')
  }

  /** The `HH:MM:00` text built from an hour and a two-digit minute string. */
  function ClockText(hours: nat, minutes: string): (x: string)
    requires |minutes| == 2 && AllDigits(minutes)
    ensures ClockTextOf(x, hours, ParseDigits(minutes))
  {
    var n := NatToString(hours);
    var h := Pad2(n);
    Pad2Value(n);
    ParseJoined(h, minutes);
    var x := h + ":" + minutes + ":00";
    assert forall k :: 0 <= k < |h| ==> x[k] == h[k];
    assert forall k :: 0 <= k < 2 ==> x[|h| + 1 + k] == minutes[k];
    assert hours >= 10 ==> h == n && x[0] == n[0];
    x
  }

  /** Below 100 the hour field is the two decimal digits of the hour. */
  lemma ClockTextDigits(hours: nat, minutes: string)
    requires hours < 100 && |minutes| == 2 && AllDigits(minutes)
    ensures ClockText(hours, minutes)
      == [DigitChar(hours / 10), DigitChar(hours % 10), ':', minutes[0], minutes[1], ':', '0', '0']
  {
    var n := NatToString(hours);
    var h := [DigitChar(hours / 10), DigitChar(hours % 10)];
    if hours < 10 {
      assert n == [DigitChar(hours)];
      assert Pad2(n) == h;
    } else {
      assert n == NatToString(hours / 10) + [DigitChar(hours % 10)];
      assert NatToString(hours / 10) == [DigitChar(hours / 10)];
      assert Pad2(n) == h;
    }
    assert ClockText(hours, minutes) == h + ":" + minutes + ":00";
  }

  /** The hour written in the output: the 24-hour value of the matched hour and period. */
  function HourOf(m: TimeMatch): nat
    requires AllDigits(m.hour)
  {
    To24(ParseDigits(m.hour), m.period)
  }

  /** The minute written in the output: the matched minutes, `"00"` when absent. */
  function MinuteText(m: TimeMatch): (mm: string)
    requires m.minute.Some? ==> |m.minute.value| == 2 && AllDigits(m.minute.value)
    ensures |mm| == 2 && AllDigits(mm)
    ensures m.minute.Some? ==> mm == m.minute.value
    ensures m.minute.None? ==> ParseDigits(mm) == 0
  {
    if m.minute.Some? then m.minute.value
    else
      assert ParseDigits("00") == 0 by {
        assert "00"[..1] == "0";
        assert "0"[..0] == "";
      }
      "00"
  }

  /**
   * `convertTo24HourTime`: `None` for a missing or empty argument; the argument unchanged
   * when it holds no time phrase; otherwise `HH:MM:00` for the first time phrase in it.
   */
  function ConvertTo24HourTime(t: Option<string>): (r: Option<string>)
    ensures t.None? || t == Some("") ==> r.None?
    ensures t.Some? && t.value != "" && FirstFrom(t.value, 0, TimeAt).None? ==> r == t
    ensures t.Some? && t.value != "" && FirstFrom(t.value, 0, TimeAt).Some? ==>
      var m := FirstFrom(t.value, 0, TimeAt).value.1;
      r.Some? && ClockTextOf(r.value, HourOf(m), if m.minute.Some? then ParseDigits(m.minute.value) else 0)
  {
    match t
    case None => None
    case Some(text) =>
      if text == "" then None
      else
        match FirstFrom(text, 0, TimeAt)
        case None => t
        case Some((_, m)) => Some(ClockText(HourOf(m), MinuteText(m)))
  }

  /** Text without letters contains no time phrase: a period needs the letters `AM`/`PM`. */
  lemma NoLetterNoTime(s: string)
    requires forall k :: 0 <= k < |s| ==> !IsLetter(s[k])
    ensures FirstFrom(s, 0, TimeAt).None?
  {
    forall k | 0 <= k <= |s|
      ensures TimeAt(s, k).None?
    {
    }
  }

  /** Text of digits and colons passes through the normaliser unchanged. */
  lemma DigitsPassThrough(x: string)
    requires x != "" && DigitsAndColons(x)
    ensures ConvertTo24HourTime(Some(x)) == Some(x)
  {
    NoLetterNoTime(x);
  }

  /** Normalising twice is normalising once: the `HH:MM:00` output contains no `AM`/`PM`. */
  lemma {:induction false} ConvertIdempotent(t: Option<string>)
    ensures ConvertTo24HourTime(ConvertTo24HourTime(t)) == ConvertTo24HourTime(t)
  {
    var r := ConvertTo24HourTime(t);
    if t.Some? && t.value != "" && FirstFrom(t.value, 0, TimeAt).Some? {
      var m := FirstFrom(t.value, 0, TimeAt).value.1;
      assert ClockTextOf(r.value, HourOf(m), if m.minute.Some? then ParseDigits(m.minute.value) else 0);
      DigitsPassThrough(r.value);
    }
  }
}

/** The worked examples of the time normaliser. */
module ClockExamples {
  import opened Optional
  import opened Chars
  import opened Decimal
  import opened Clock
  import opened Scan

  /** Unfolds the normaliser once its first time phrase is known. */
  lemma ConvertFirst(text: string, m: TimeMatch)
    requires text != "" && FirstFrom(text, 0, TimeAt) == Some((0, m))
    requires AllDigits(m.hour) && m.minute.None?
    ensures ConvertTo24HourTime(Some(text)) == Some(ClockText(HourOf(m), "00"))
  {
  }

  /** `\s*(AM|PM)` at `p` when one space and the two period letters end the text. */
  lemma PeriodHere(s: string, p: nat, per: Period)
    requires p + 3 == |s| && s[p] == ' ' && IsLetter(s[p + 1]) && Fold(s[p + 2]) == 'm'
    requires Fold(s[p + 1]) == (if per == AM then 'a' else 'p')
    ensures PeriodAt(s, p) == Some((per, |s|))
  {
    SpaceBeforeLetter(s, p);
  }

  /** Hour digits, then a period and the end of the text: the first time phrase is all of it. */
  lemma HourThenPeriod(s: string, h: nat, per: Period)
    requires (h == 1 || h == 2) && h < |s|
    requires forall k :: 0 <= k < h ==> IsDigit(s[k])
    requires s[h] == ' ' && PeriodAt(s, h) == Some((per, |s|))
    ensures FirstFrom(s, 0, TimeAt) == Some((0, TimeMatch(s[0..h], None, per, |s|)))
  {
    assert !MinuteDigitsAt(s, h);
    assert AfterHour(s, 0, h) == Some(TimeMatch(s[0..h], None, per, |s|));
    if h == 1 {
      assert !IsDigit(s[1]);
    }
    assert TimeAt(s, 0) == Some(TimeMatch(s[0..h], None, per, |s|));
  }

  /**
   * A text of one or two hour digits, a space and a period is normalised as a whole, to the
   * digits of its 24-hour value with `:00:00`.
   */
  lemma HourPeriodPhrase(s: string, h: nat, per: Period, out: string)
    requires (h == 1 || h == 2) && h + 3 == |s|
    requires forall k :: 0 <= k < h ==> IsDigit(s[k])
    requires s[h] == ' ' && IsLetter(s[h + 1]) && Fold(s[h + 2]) == 'm'
    requires Fold(s[h + 1]) == (if per == AM then 'a' else 'p')
    requires var hour := To24(ParseDigits(s[0..h]), per);
      hour < 100 && out == [DigitChar(hour / 10), DigitChar(hour % 10), ':', '0', '0', ':', '0', '0']
    ensures ConvertTo24HourTime(Some(s)) == Some(out)
  {
    var m := TimeMatch(s[0..h], None, per, |s|);
    assert FirstFrom(s, 0, TimeAt) == Some((0, m)) by {
      PeriodHere(s, h, per);
      HourThenPeriod(s, h, per);
    }
    ConvertFirst(s, m);
    assert HourOf(m) == To24(ParseDigits(s[0..h]), per);
    ClockTextDigits(HourOf(m), "00");
    assert ClockText(HourOf(m), "00") == out;
  }

  /** The value of a two-digit text. */
  lemma TwoDigitValue(x: string)
    requires |x| == 2 && AllDigits(x)
    ensures ParseDigits(x) == 10 * DigitValue(x[0]) + DigitValue(x[1])
  {
    var y := x[..1];
    assert ParseDigits(y) == DigitValue(x[0]) by {
      assert y[..0] == [];
    }
    assert ParseDigits(x) == ParseDigits(y) * 10 + DigitValue(x[1]);
  }

  /** 7 PM is 19:00:00. */
  lemma SevenPm()
    ensures ConvertTo24HourTime(Some("7 PM")) == Some("19:00:00")
  {
    var s := "7 PM";
    assert IsDigit(s[0]) && s[1] == ' ' && IsLetter(s[2]) && Fold(s[2]) == 'p' && Fold(s[3]) == 'm';
    assert ParseDigits(s[0..1]) == 7 by {
      assert s[0..1][..0] == [];
    }
    HourPeriodPhrase(s, 1, PM, "19:00:00");
  }

  /** Midnight: 12 AM is 00:00:00. */
  lemma TwelveAm()
    ensures ConvertTo24HourTime(Some("12 AM")) == Some("00:00:00")
  {
    var s := "12 AM";
    assert IsDigit(s[0]) && IsDigit(s[1]) && s[2] == ' ' && IsLetter(s[3]) && Fold(s[3]) == 'a' && Fold(s[4]) == 'm';
    assert ParseDigits(s[0..2]) == 12 by {
      TwoDigitValue(s[0..2]);
    }
    HourPeriodPhrase(s, 2, AM, "00:00:00");
  }

  /** Noon: 12 PM is 12:00:00. */
  lemma TwelvePm()
    ensures ConvertTo24HourTime(Some("12 PM")) == Some("12:00:00")
  {
    var s := "12 PM";
    assert IsDigit(s[0]) && IsDigit(s[1]) && s[2] == ' ' && IsLetter(s[3]) && Fold(s[3]) == 'p' && Fold(s[4]) == 'm';
    assert ParseDigits(s[0..2]) == 12 by {
      TwoDigitValue(s[0..2]);
    }
    HourPeriodPhrase(s, 2, PM, "12:00:00");
  }

  /** Text without a time phrase passes through unchanged. */
  lemma NoonPassesThrough()
    ensures ConvertTo24HourTime(Some("noon")) == Some("noon")
  {
    assert FirstFrom("noon", 0, TimeAt).None? by {
      assert TimeAt("noon", 4).None?;
      assert TimeAt("noon", 3).None?;
      assert TimeAt("noon", 2).None?;
      assert TimeAt("noon", 1).None?;
      assert TimeAt("noon", 0).None?;
    }
  }
}
