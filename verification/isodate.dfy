/**
 * `convertToISODate` (server/bookingService.js): removes ordinal suffixes from a date phrase,
 * has the JavaScript `Date` parser read it, and writes the local calendar date as
 * `year-MM-DD`; `None` when there is no phrase or the parser rejects it.
 */
module IsoDate {
  import opened Optional
  import opened Chars
  import opened Decimal
  import opened Scan

  type Month = m: int | 1 <= m <= 12 witness 1

  type Day = d: int | 1 <= d <= 31 witness 1

  /** What `getFullYear`, `getMonth() + 1` and `getDate` report for a parsed date. */
  datatype CalendarDate = CalendarDate(year: int, month: Month, day: Day)

  /** One of the suffixes `st`, `nd`, `rd`, `th` (lower case only: the pattern has no `i` flag). */
  predicate SuffixAt(s: string, p: nat) {
    p + 2 <= |s| && SuffixLetters(s[p], s[p + 1])
  }

  /** The two letters of `st`, `nd`, `rd` or `th`. */
  predicate SuffixLetters(c: char, d: char) {
    (c == 's' && d == 't') || (c == 'n' && d == 'd') || (c == 'r' && d == 'd') || (c == 't' && d == 'h')
  }

  /** `(\d+)(?:st|nd|rd|th)` at `i`: the end of the digit group when the pattern matches. */
  function OrdinalAt(s: string, i: nat): (r: Option<nat>)
    ensures r.Some? ==> i < r.value && r.value + 2 <= |s| && SuffixAt(s, r.value)
    ensures r.Some? ==> forall k :: i <= k < r.value ==> IsDigit(s[k])
  {
    if i < |s| && IsDigit(s[i]) then
      // \d+ is greedy, and no suffix begins with a digit.
      var d := RunEnd(s, i, Digit);
      if SuffixAt(s, d) then Some(d) else None
    else None
  }

  /** `replace(/(\d+)(?:st|nd|rd|th)/g, '$1')` applied to `s[p..]`. */
  function StripFrom(s: string, p: nat): string
    requires p <= |s|
    decreases |s| - p
  {
    var r := FirstFrom(s, p, OrdinalAt);
    if r.None? then s[p..] else s[p..r.value.1] + StripFrom(s, r.value.1 + 2)
  }

  /**
   * The cleaned date phrase handed to the `Date` parser: the reference reading, which drops
   * every ordinal suffix that follows a digit and keeps everything else.
   */
  function StripOrdinals(s: string): (r: string)
    ensures r == DropSuffixes(s, 0)
  {
    StripFromIsDrop(s, 0);
    StripFrom(s, 0)
  }

  /** An ordinal suffix right after a digit, at index `p`. */
  predicate SuffixAfterDigit(s: string, p: nat) {
    0 < p <= |s| && IsDigit(s[p - 1]) && SuffixAt(s, p)
  }

  /**
   * The reference reading of the replacement: walking left to right, the two letters of every
   * ordinal suffix that directly follows a digit are dropped and every other character is kept.
   */
  function DropSuffixes(s: string, p: nat): string
    requires p <= |s|
    decreases |s| - p
  {
    if p == |s| then []
    else if SuffixAfterDigit(s, p) then DropSuffixes(s, p + 2)
    else [s[p]] + DropSuffixes(s, p + 1)
  }

  /** A digit followed by a suffix is itself a match of the ordinal pattern. */
  lemma OrdinalAtSuffixedDigit(s: string, j: nat)
    requires j < |s| && IsDigit(s[j]) && SuffixAt(s, j + 1)
    ensures OrdinalAt(s, j) == Some(j + 1)
  {
    assert !IsDigit(s[j + 1]);
  }

  /** Where the ordinal pattern never matches, the reference keeps the text as it is. */
  lemma {:induction false} DropNoOrdinal(s: string, p: nat, q: nat)
    requires p <= q <= |s|
    requires p == 0 || !IsDigit(s[p - 1])
    requires forall k :: p <= k <= |s| ==> OrdinalAt(s, k).None?
    ensures DropSuffixes(s, q) == s[q..]
    decreases |s| - q
  {
    if q < |s| {
      if SuffixAfterDigit(s, q) {
        assert q > p;
        OrdinalAtSuffixedDigit(s, q - 1);
        assert false;
      }
      DropNoOrdinal(s, p, q + 1);
      assert s[q..] == [s[q]] + s[q + 1..];
    }
  }

  /** Up to and including a match, the reference copies the digits and drops the suffix. */
  lemma {:induction false} DropThroughMatch(s: string, p: nat, start: nat, d: nat, q: nat)
    requires OrdinalAt(s, start) == Some(d)
    requires p <= start < d && p <= q <= d
    requires p == 0 || !IsDigit(s[p - 1])
    requires forall k :: p <= k < start ==> OrdinalAt(s, k).None?
    ensures d + 2 <= |s|
    ensures DropSuffixes(s, q) == s[q..d] + DropSuffixes(s, d + 2)
    decreases d - q
  {
    if q < d {
      NoSuffixBeforeMatch(s, p, start, d, q);
      DropThroughMatch(s, p, start, d, q + 1);
      SliceCons(s, q, d, DropSuffixes(s, d + 2));
    } else {
      assert IsDigit(s[d - 1]);
    }
  }

  /** Before the end of the first match, no suffix follows a digit. */
  lemma NoSuffixBeforeMatch(s: string, p: nat, start: nat, d: nat, q: nat)
    requires OrdinalAt(s, start) == Some(d)
    requires p <= start < d && p <= q < d
    requires p == 0 || !IsDigit(s[p - 1])
    requires forall k :: p <= k < start ==> OrdinalAt(s, k).None?
    ensures !SuffixAfterDigit(s, q)
  {
    if SuffixAfterDigit(s, q) {
      if q - 1 < start {
        assert q > p;
        OrdinalAtSuffixedDigit(s, q - 1);
        assert false;
      } else {
        assert false;
      }
    }
  }

  /** A slice followed by more text is its first character followed by the rest. */
  lemma SliceCons(s: string, q: nat, d: nat, rest: string)
    requires q < d <= |s|
    ensures s[q..d] + rest == [s[q]] + (s[q + 1..d] + rest)
  {
    assert s[q..d] == [s[q]] + s[q + 1..d];
  }

  /** The global replacement agrees with the reference reading. */
  lemma {:induction false} StripFromIsDrop(s: string, p: nat)
    requires p <= |s|
    requires p == 0 || !IsDigit(s[p - 1])
    ensures StripFrom(s, p) == DropSuffixes(s, p)
    decreases |s| - p
  {
    match FirstFrom(s, p, OrdinalAt)
    case None =>
      StripNoMatch(s, p);
    case Some((start, d)) =>
      StripFirstMatch(s, p, start, d);
      StripFromIsDrop(s, d + 2);
  }

  /** Without a match from `p` the replacement and the reference both keep `s[p..]`. */
  lemma StripNoMatch(s: string, p: nat)
    requires p <= |s|
    requires p == 0 || !IsDigit(s[p - 1])
    requires FirstFrom(s, p, OrdinalAt).None?
    ensures StripFrom(s, p) == DropSuffixes(s, p)
  {
    DropNoOrdinal(s, p, p);
  }

  /** At the first match from `p`, both readings keep the digits and continue after the suffix. */
  lemma StripFirstMatch(s: string, p: nat, start: nat, d: nat)
    requires p <= |s|
    requires p == 0 || !IsDigit(s[p - 1])
    requires FirstFrom(s, p, OrdinalAt) == Some((start, d))
    ensures d + 2 <= |s| && !IsDigit(s[d + 1])
    ensures StripFrom(s, p) == s[p..d] + StripFrom(s, d + 2)
    ensures DropSuffixes(s, p) == s[p..d] + DropSuffixes(s, d + 2)
  {
    DropThroughMatch(s, p, start, d, p);
    SuffixNotDigit(s, d);
    StripStep(s, p, start, d);
  }

  /** One step of the replacement: the text before the match's suffix, then the rest replaced. */
  lemma StripStep(s: string, p: nat, start: nat, d: nat)
    requires p <= |s| && FirstFrom(s, p, OrdinalAt) == Some((start, d))
    ensures d + 2 <= |s| && StripFrom(s, p) == s[p..d] + StripFrom(s, d + 2)
  {
  }

  /** A suffix is two letters, so the character after its first is no digit. */
  lemma SuffixNotDigit(s: string, d: nat)
    requires SuffixAt(s, d)
    ensures d + 2 <= |s| && !IsDigit(s[d + 1])
  {
  }

  /** Without a suffixed digit the reference reading is the identity. */
  lemma {:induction false} DropIdentity(s: string, q: nat)
    requires q <= |s|
    requires forall j :: q <= j <= |s| ==> !SuffixAfterDigit(s, j)
    ensures DropSuffixes(s, q) == s[q..]
    decreases |s| - q
  {
    if q < |s| {
      DropIdentity(s, q + 1);
      assert s[q..] == [s[q]] + s[q + 1..];
    }
  }

  /** A suffixed digit at or after `q` makes the reference reading strictly shorter. */
  lemma {:induction false} DropShorter(s: string, q: nat, j: nat)
    requires q <= j <= |s| && SuffixAfterDigit(s, j)
    ensures |DropSuffixes(s, q)| < |s| - q
    decreases |s| - q
  {
    if SuffixAfterDigit(s, q) {
      DropLength(s, q + 2);
    } else {
      DropShorter(s, q + 1, j);
    }
  }

  lemma {:induction false} DropLength(s: string, q: nat)
    requires q <= |s|
    ensures |DropSuffixes(s, q)| <= |s| - q
    decreases |s| - q
  {
    if q < |s| {
      if SuffixAfterDigit(s, q) {
        DropLength(s, q + 2);
      } else {
        DropLength(s, q + 1);
      }
    }
  }

  /** Some digit in `s` is directly followed by `st`, `nd`, `rd` or `th`. */
  predicate HasOrdinal(s: string) {
    exists j :: 0 <= j <= |s| && SuffixAfterDigit(s, j)
  }

  /** The phrase changes exactly when it holds an ordinal: nothing else is touched. */
  lemma StripOrdinalsUnchanged(s: string)
    ensures StripOrdinals(s) == s <==> !HasOrdinal(s)
  {
    if HasOrdinal(s) {
      var j :| 0 <= j <= |s| && SuffixAfterDigit(s, j);
      DropShorter(s, 0, j);
    } else {
      DropIdentity(s, 0);
    }
  }

  /** Reading back text joined from a year, a dash and two two-digit fields. */
  lemma ParseIsoJoined(y: string, mm: string, dd: string, year: int)
    requires ParseInt(y) == Some(year)
    requires |mm| == 2 && AllDigits(mm) && 1 <= ParseDigits(mm) <= 12
    requires |dd| == 2 && AllDigits(dd) && 1 <= ParseDigits(dd) <= 31
    ensures ParseIso(y + "-" + mm + "-" + dd) == Some(CalendarDate(year, ParseDigits(mm), ParseDigits(dd)))
  {
    var r := y + "-" + mm + "-" + dd;
    JoinedFields(y, mm, dd, r, |r|);
  }

  /** Where the fields sit in text joined as `y-mm-dd`. */
  lemma JoinedFields(y: string, mm: string, dd: string, r: string, n: nat)
    requires |y| >= 1 && |mm| == 2 && |dd| == 2
    requires r == y + "-" + mm + "-" + dd && n == |r|
    ensures n >= 7 && r[n - 6] == '-' && r[n - 3] == '-'
    ensures r[..n - 6] == y && r[n - 5..n - 3] == mm && r[n - 2..] == dd
  {
    assert r[n - 6] == "-"[0] && r[n - 3] == "-"[0];
    assert r[..n - 6] == y;
    assert r[n - 5..n - 3] == mm;
    assert r[n - 2..] == dd;
  }

  /** A month or day number written as two digits. */
  function TwoDigits(n: nat): (r: string)
    requires 1 <= n <= 31
    ensures |r| == 2 && AllDigits(r) && ParseDigits(r) == n
  {
    Pad2Value(NatToString(n));
    Pad2(NatToString(n))
  }

  /** `year-MM-DD` with the year as `String` writes it and month and day padded to two digits. */
  function FormatIso(d: CalendarDate): (r: string)
    ensures ParseIso(r) == Some(d)
  {
    IntRoundTrip(d.year);
    ParseIsoJoined(IntToString(d.year), TwoDigits(d.month), TwoDigits(d.day), d.year);
    IntToString(d.year) + "-" + TwoDigits(d.month) + "-" + TwoDigits(d.day)
  }

  /** Reads `year-MM-DD` text back into a calendar date. */
  function ParseIso(x: string): (r: Option<CalendarDate>)
    ensures r.Some? ==> |x| >= 7 && x[|x| - 6] == '-' && x[|x| - 3] == '-'
    ensures r.Some? ==> AllDigits(x[|x| - 5..|x| - 3]) && AllDigits(x[|x| - 2..])
  {
    if |x| >= 7 && x[|x| - 6] == '-' && x[|x| - 3] == '-'
       && AllDigits(x[|x| - 5..|x| - 3]) && AllDigits(x[|x| - 2..])
    then
      var y := ParseInt(x[..|x| - 6]);
      var m := ParseDigits(x[|x| - 5..|x| - 3]);
      var d := ParseDigits(x[|x| - 2..]);
      if y.Some? && 1 <= m <= 12 && 1 <= d <= 31 then Some(CalendarDate(y.value, m, d)) else None
    else None
  }

  /** Two digits that denote `n` are the two digits `TwoDigits` writes for it. */
  lemma TwoDigitsUnique(s: string, n: nat)
    requires 1 <= n <= 31
    requires |s| == 2 && AllDigits(s) && ParseDigits(s) == n
    ensures s == TwoDigits(n)
  {
    SameTwoDigits(s, TwoDigits(n));
  }

  /** Two two-digit strings of the same value are the same string. */
  lemma SameTwoDigits(s: string, r: string)
    requires |s| == 2 && AllDigits(s) && |r| == 2 && AllDigits(r)
    requires ParseDigits(s) == ParseDigits(r)
    ensures s == r
  {
    TwoDigitValue(s);
    TwoDigitValue(r);
    assert s[0] == r[0] && s[1] == r[1];
    assert s == [s[0], s[1]] && r == [r[0], r[1]];
  }

  /** The value of a two-digit string, digit by digit. */
  lemma TwoDigitValue(s: string)
    requires |s| == 2 && AllDigits(s)
    ensures DigitValue(s[0]) == ParseDigits(s) / 10 && DigitValue(s[1]) == ParseDigits(s) % 10
  {
    assert s[..1][..0] == "" && s[..1][0] == s[0];
    assert ParseDigits(s[..1]) == DigitValue(s[0]);
  }

  /** The fields ISO text is read from, when it reads back as `d`. */
  lemma IsoFields(x: string, d: CalendarDate)
    requires ParseIso(x) == Some(d)
    ensures |x| >= 7 && x[|x| - 6] == '-' && x[|x| - 3] == '-'
    ensures ParseInt(x[..|x| - 6]) == Some(d.year)
    ensures AllDigits(x[|x| - 5..|x| - 3]) && ParseDigits(x[|x| - 5..|x| - 3]) == d.month
    ensures AllDigits(x[|x| - 2..]) && ParseDigits(x[|x| - 2..]) == d.day
  {
  }

  /** Text with dashes at the ISO places is its year, month and day joined by dashes. */
  lemma Rejoin(x: string, n: nat)
    requires n == |x| && n >= 7 && x[n - 6] == '-' && x[n - 3] == '-'
    ensures x == x[..n - 6] + "-" + x[n - 5..n - 3] + "-" + x[n - 2..]
  {
  }

  /**
   * ISO text is read back only from the text written for its date: there is exactly one
   * `year-MM-DD` text per calendar date.
   */
  lemma IsoTextUnique(x: string, d: CalendarDate)
    requires ParseIso(x) == Some(d)
    ensures x == FormatIso(d)
  {
    var n := |x|;
    IsoFields(x, d);
    Rejoin(x, n);
    TwoDigitsUnique(x[n - 5..n - 3], d.month);
    TwoDigitsUnique(x[n - 2..], d.day);
  }

  /**
   * `convertToISODate`, with the `Date` parser and its local-time getters given as `parse`:
   * `None` for a missing or empty phrase or when the parser rejects the cleaned phrase,
   * otherwise the ISO text of exactly the date the parser read.
   */
  function ConvertToIsoDate(dateStr: Option<string>, parse: string -> Option<CalendarDate>): (r: Option<string>)
    ensures dateStr.None? || dateStr == Some("") ==> r.None?
    ensures dateStr.Some? && dateStr.value != "" ==>
      (r.Some? <==> parse(StripOrdinals(dateStr.value)).Some?)
    ensures r.Some? ==> dateStr.Some? && ParseIso(r.value) == parse(StripOrdinals(dateStr.value))
  {
    match dateStr
    case None => None
    case Some(text) =>
      if text == "" then None
      else
        match parse(StripOrdinals(text))
        case None => None
        case Some(d) => Some(FormatIso(d))
  }
}
