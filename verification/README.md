# Booking extraction from voice-call summaries

A Dafny model of the text-processing core of `server/bookingService.js`: the function that
reads a voice assistant's end-of-call webhook payload and pulls a booking out of its free-text
summary (`extractBookingInfo`), the two converters that normalise the extracted date and time
for storage (`convertToISODate`, `convertTo24HourTime`), and the mapping from an extracted
booking to the stored row (`saveBooking`'s insert).

Every regular expression of the extractor is written out as a matcher `XAt(s, i)` that tries to
match at index `i`, trying alternatives and optional parts in the order the ECMAScript
backtracking matcher does (module `Scan`). `String.prototype.match` without the `g` flag is
`Scan.FirstFrom`, the leftmost start that matches; `RegExp.prototype.test` is `Scan.FindFrom`.
The `i` flag is ASCII case folding. Where giving characters back to a greedy `\s+` or taking the
optional article `a\s+` changes the outcome (the special-request patterns), the backtracking
order is modelled step by step.

Modules, in the order of the source:

- `Clock` — `convertTo24HourTime`: the first `H[:MM] AM|PM` phrase becomes `HH:MM:00`.
- `IsoDate` — `convertToISODate`: ordinal suffixes are removed, the `Date` parser (a parameter)
  reads the phrase, and the calendar date is written `year-MM-DD`.
- `Payload` — where the extractor finds the transcript, the summary and the caller's number.
- `Names` — the five name rules, tried in order, each with its own exclusions.
- `Services` — the service classifier and the fixed service vocabulary.
- `Schedule` — the date and time phrases kept from the summary.
- `Requests` — the first-sentence window and the three special-request tiers.
- `Booking` — the extractor as a whole and the stored row.
- `Optional`, `Chars`, `Decimal`, `Scan` — option/result types, ASCII characters, decimal
  text, and the matcher building blocks.

Behaviours of the code that the model keeps as written:

- The special-request tier 3 pattern ends its lazy item at the first `for`, even inside a word:
  "requesting a comfortable fade." yields "com". `Requests.RequestRoundTrip` therefore requires
  an item without `for`.
- Tier 2 can produce the empty string (an item made only of white space). The empty string is
  falsy, so tier 3 still runs; when tier 3 finds nothing, the result stays the empty string.
- Transcript rule 5, `name'?s?\s+([A-Z][a-z]+)` under the `i` flag, reads "name is John" as the
  name "is".
- Only the first occurrence of each name pattern is looked at: an excluded first capture
  ("for Sam") hides a later good one ("for Mike"), as `NamesExamples.FirstOccurrenceOnly` shows.

The special-request extractor has exactly three tiers. The tier 3 stop words are `haircut`,
`appointment`, `his` and `her`, and a tier can return the empty string.

## Model

| member | source | states |
|---|---|---|
| Chars.Lower | server/bookingService.js:73 | `toLowerCase` on ASCII text keeps the length and folds each character to lower case |
| Chars.CapitalisedUnique | server/bookingService.js:80 | a `[A-Z][a-z]+` word is the only capitalised spelling of its lower-case form, so comparing lower-cased captures loses nothing |
| Decimal.NatToString | server/bookingService.js:17 | `toString` of a natural number: decimal digits without a leading zero that read back as the number |
| Decimal.Pad2 | server/bookingService.js:17 | `padStart(2, '0')`: at least two characters, the text at the end, zeros before it |
| Decimal.Pad2Value | server/bookingService.js:34-35 | padding a digit string with zeros does not change the number it denotes |
| Decimal.IntToString | server/bookingService.js:33-37 | `String(year)`: a minus sign before the digits of a negative year, digits only otherwise, never a leading zero |
| Decimal.ParseInt | server/bookingService.js:33-37 | reading a year accepts only the text `String` writes for it, so a read-back fixes the text |
| Decimal.IntRoundTrip | server/bookingService.js:33-37 | the year written by `String` reads back as the same integer |
| Scan.FirstFrom | server/bookingService.js:7 | `match` without `g`: the returned start matches, and no earlier start does; none when no start matches |
| Scan.FindFrom | server/bookingService.js:105 | `test`: the leftmost start at which the pattern matches, or none when no start matches |
| Scan.RunEnd | server/bookingService.js:7 | a greedy run of a character class stops exactly at the first character outside the class |
| Scan.LitAt | server/bookingService.js:63 | a literal matches at `i` exactly when it fits and each character agrees, folded under `i` |
| Scan.FoundWithinRun | server/bookingService.js:105 | `.*` followed by a pattern: the leftmost match lies within the run exactly when some match is reachable through it |
| Clock.PeriodAtMeans | server/bookingService.js:7 | `\s*(AM\|PM)` reads the period from the letters `am` or `pm` in either case after white space only; there is none exactly when no such pair follows a stretch of white space |
| Clock.TimeAt | server/bookingService.js:7 | the time pattern takes a one- or two-digit hour, two minute digits when present, and a period |
| Clock.To24 | server/bookingService.js:12-15 | a 12-hour clock hour and period give an hour below 24 from which they are recovered; any other hour than 12, including 0 and 13 to 99, gains 12 in the afternoon and is kept in the morning |
| Clock.To24Onto | server/bookingService.js:14-15 | every hour of the day is produced by some 12-hour hour and period |
| Clock.ClockText | server/bookingService.js:17 | the output is digits and colons ending in `:00`, reads back as the hour and minutes given, is exactly eight characters for hours below 100, and has no leading zero from hour 10 on |
| Clock.MinuteText | server/bookingService.js:11 | the minutes written are exactly the two matched digits, or `00` when none were matched |
| Clock.ConvertTo24HourTime | server/bookingService.js:4-18 | nothing for a missing or empty argument; the argument unchanged without a time phrase; else `HH:MM:00` text, eight characters for hours below 100, reading back as the 24-hour value of the first phrase |
| Clock.NoLetterNoTime | server/bookingService.js:7-8 | text without letters holds no time phrase, so it passes through unchanged |
| Clock.ConvertIdempotent | server/bookingService.js:4-18 | converting a converted time changes nothing |
| ClockExamples.SevenPm | server/bookingService.js:3-17 | "7 PM" becomes "19:00:00" |
| ClockExamples.TwelveAm | server/bookingService.js:15 | "12 AM" becomes "00:00:00" |
| ClockExamples.TwelvePm | server/bookingService.js:14 | "12 PM" stays hour 12: "12:00:00" |
| ClockExamples.NoonPassesThrough | server/bookingService.js:8 | a phrase without a time ("noon") is returned as it is |
| IsoDate.OrdinalAt | server/bookingService.js:25 | the ordinal pattern matches a run of digits directly followed by a lower-case `st`, `nd`, `rd` or `th` |
| IsoDate.StripOrdinals | server/bookingService.js:25 | the global replacement equals the reference reading that drops every suffix following a digit and keeps all else |
| IsoDate.DropLength | server/bookingService.js:25 | the cleaned phrase is never longer than the original |
| IsoDate.StripOrdinalsUnchanged | server/bookingService.js:25 | the phrase changes exactly when some digit in it is followed by an ordinal suffix |
| IsoDate.TwoDigits | server/bookingService.js:34-35 | month and day are written as two digits that read back as the number |
| IsoDate.FormatIso | server/bookingService.js:33-37 | the `year-MM-DD` text reads back as exactly the calendar date written |
| IsoDate.IsoTextUnique | server/bookingService.js:33-37 | any text that reads back as a date is the text written for it: one ISO text per date, with an unpadded year |
| IsoDate.ConvertToIsoDate | server/bookingService.js:21-42 | nothing for a missing or empty phrase; a date exactly when the parser accepts the cleaned phrase, and then the ISO form of the date it read |
| Payload.Get | server/bookingService.js:51-55 | a property read yields a value exactly when the value is an object holding the key, and then that field |
| Payload.GetChained | server/bookingService.js:53-55 | `v.outer?.inner` yields a value exactly when `outer` is an object field holding `inner`, and then that inner field |
| Payload.Message | server/bookingService.js:51 | the fields are read from a truthy `message` when there is one, else from the payload itself |
| Payload.Unwrap | server/bookingService.js:51-56 | reading fails exactly on `null`; the transcript is a truthy `transcript`, else a truthy `artifact.transcript`, else the empty string, and the summary likewise with `analysis`; the number is `customer.number` of a truthy `customer`, and absent otherwise |
| Payload.WrapperTransparent | server/bookingService.js:51 | wrapping a payload under `message` changes nothing the extractor reads |
| Payload.TopLevelSummaryFirst | server/bookingService.js:53 | a non-empty `summary` is taken in preference to `analysis.summary` |
| Names.LeadingActionAt | server/bookingService.js:63 | rule 1 matches only at the start and captures a capitalised word |
| Names.UserCommaAt | server/bookingService.js:72 | rule 2 captures a run of two or more letters |
| Names.ForNameAt | server/bookingService.js:79 | rule 3 captures a capitalised word |
| Names.SelfIntroAt | server/bookingService.js:87 | rule 4 captures a run of two or more letters |
| Names.NamePossessiveAt | server/bookingService.js:88 | rule 5 captures a run of two or more letters |
| Names.RuleCapture | server/bookingService.js:63-100 | a rule's capture comes from its leftmost match; no capture when it matches nowhere |
| Names.Excluded | server/bookingService.js:66-95 | for the capitalised words rule 3 captures, its lower-cased test excludes exactly "Sam" and the weekdays |
| Names.Cascade | server/bookingService.js:61-100 | the name is the contribution of the first rule that yields one; none exactly when every rule yields none |
| Names.CascadeShape | server/bookingService.js:61-100 | any name the rules find is a run of two or more ASCII letters |
| Names.SummaryName | server/bookingService.js:61-83 | the name is the capture of the first summary rule whose first capture is not excluded, each earlier rule yielding nothing; none exactly when every rule's first capture is missing or excluded |
| Names.TranscriptName | server/bookingService.js:85-100 | the name is the capture of the first transcript rule whose first capture is not excluded, each earlier rule yielding nothing; none exactly when both rules' first captures are missing or excluded |
| Names.CaseSensitiveRulesRejectWeekdays | server/bookingService.js:66 | rules 1 and 3 never return a weekday, nor any spelling of one |
| NamesExamples.LeadingName | server/bookingService.js:63-68 | "John called to book" gives the name "John" |
| NamesExamples.FirstOccurrenceOnly | server/bookingService.js:79-82 | in "for Sam for Mike" rule 3 yields nothing although its pattern matches "Mike" later |
| Services.BeardTrimEnd | server/bookingService.js:105 | `beard\s*trim` spans at least nine characters within the text |
| Services.HaircutEnds | server/bookingService.js:107 | both readings of `(?:men's\s+)?haircut` end within the text |
| Services.Detect | server/bookingService.js:105-112 | each test holds exactly when its pattern matches somewhere: the two overrides as `changed` followed on its line by the target phrase, the others at some index |
| Services.ChangedAtMeans | server/bookingService.js:105-107 | the override pattern at `c` means `changed`, any line characters, then a target phrase |
| Services.ChangedToMeans | server/bookingService.js:105-107 | the override test holds exactly when the text has `changed` followed on its line by a target phrase |
| Services.Choose | server/bookingService.js:103-121 | a beard override gives only a beard trim, a haircut override only a men's haircut; otherwise each service is listed exactly when detected, a men's haircut only without a kid's haircut |
| Services.Classify | server/bookingService.js:103-121 | a beard-trim change gives only a beard trim, else a haircut change only a men's haircut; otherwise each service is listed exactly when its pattern occurs, a men's haircut only without a kid's haircut, in rank order |
| Services.ServiceNameRoundTrip | server/bookingService.js:114-121 | every well-formed service list names a vocabulary entry that reads back as the same list |
| Services.ExtractService | server/bookingService.js:102-122 | the service text is always in the fixed vocabulary and reads back as the services classified |
| Services.OverrideWins | server/bookingService.js:105-108 | a beard-trim change wins; otherwise a haircut change gives "men's haircut" |
| ServicesExamples.ChangedToBeardTrim | server/bookingService.js:105-106 | "changed to beard trim" gives the service "beard trim" |
| Schedule.ExtractTime | server/bookingService.js:129-130 | a time is kept exactly when the summary holds a time phrase |
| Schedule.ExtractTimeLeftmost | server/bookingService.js:129-130 | the kept time is the summary's text at its leftmost time match, up to the end of that match |
| Schedule.TimeAtSlice | server/bookingService.js:129 | the time pattern reads the same on any slice that holds its match |
| Schedule.ExtractedTimeConverts | server/bookingService.js:129-130 | converting the kept phrase gives what converting the whole summary gives, a readable clock time |
| Schedule.WordFrom | server/bookingService.js:125 | the first weekday alternative found at an index, case-insensitively |
| Schedule.WeekdaysDistinct | server/bookingService.js:125 | at most one weekday alternative matches at any index |
| Schedule.DateAt | server/bookingService.js:125 | a date match spans at least fourteen characters and ends in four digits |
| Schedule.ExtractDate | server/bookingService.js:125-126 | a date is kept exactly when the summary holds a date phrase, and it ends in a four-digit year |
| Schedule.ExtractDateLeftmost | server/bookingService.js:125-126 | the kept date is the summary's text of its leftmost date match, the whole match |
| Schedule.DatePhraseMatches | server/bookingService.js:125 | a phrase such as "Wednesday, February 25th, 2026" is matched whole and kept whole |
| Requests.Window | server/bookingService.js:136 | the window is a prefix of the summary holding no sentence break, cut at the first break |
| Requests.SeparatorAt | server/bookingService.js:136 | a sentence break is one of the three texts of the pattern exactly as written, case included |
| Requests.WindowIdempotent | server/bookingService.js:136 | cutting the window again changes nothing |
| Requests.Trim | server/bookingService.js:148 | `trim` returns a stretch of the text with no white space at either end and only white space cut |
| Requests.TrimIdempotent | server/bookingService.js:148 | trimming twice is trimming once |
| Requests.TrimKeeps | server/bookingService.js:148 | text without white space at its ends is left as it is |
| Requests.LazyItem | server/bookingService.js:146 | the lazy item ends at the first place its ending can follow, within the letter-and-space run |
| Requests.QuotedAt | server/bookingService.js:139 | tier 1 captures a quoted text after `requesting ` |
| Requests.StyleAt | server/bookingService.js:146 | tier 2 captures letters and spaces after `haircut`/`trim with` |
| Requests.RequestAt | server/bookingService.js:158 | tier 3 captures letters and spaces after `requesting` |
| Requests.QuotedRequest | server/bookingService.js:139-142 | tier 1 yields nothing exactly when no quoted request occurs; otherwise non-empty text without `"` from the window |
| Requests.QuotedRequestLeftmost | server/bookingService.js:139-142 | the tier 1 result is the quoted text of the leftmost quoted request in the window |
| Requests.Mentions | server/bookingService.js:150 | an item mentions a word list exactly when the leftmost scan for a whole listed word, in any case, finds one |
| Requests.StyleRequest | server/bookingService.js:146-153 | a tier 2 result is trimmed letters and spaces from the window that mentions no excluded person word |
| Requests.PlainRequest | server/bookingService.js:158-164 | a tier 3 result is trimmed letters and spaces from the window that mentions no generic word |
| Requests.Precedence | server/bookingService.js:139-165 | tier 1 is kept when it found something; else a non-empty tier 2 result; else tier 3 when it found something; else what tier 2 left, possibly nothing |
| Requests.ExtractRequests | server/bookingService.js:132-165 | tier 1 wins when it finds something, then a non-empty tier 2 result, then tier 3; the request is a stretch of the summary |
| Requests.QuotedRoundTrip | server/bookingService.js:139-142 | `requesting "X"` gives back exactly X |
| Requests.StyleRoundTrip | server/bookingService.js:146-153 | "haircut with a STYLE" gives back exactly STYLE when it names no person |
| Requests.RequestRoundTrip | server/bookingService.js:158-164 | "requesting ITEM." gives back exactly ITEM when it holds no `for` and no generic word |
| Booking.ExtractName | server/bookingService.js:61-100 | the summary rules win; the transcript is read only when they find nothing, and reading fails exactly when it is then not a string |
| Booking.FromSummary | server/bookingService.js:102-165 | the service, date, time and request are exactly what the service, date, time and request extractors give on the summary; a kept time converts to `HH:MM:00` |
| Booking.ExtractBookingInfo | server/bookingService.js:50-175 | fails exactly on a null payload, a summary that is not a string, or a transcript that must be read and is not one; else the caller's number, the summary name or else the transcript name, and the service, date, time and request the extractors give on the summary |
| Booking.ToRecord | server/bookingService.js:198-206 | the row keeps the business id and call id given, lists the service alone and is confirmed; its time is stored clock text whenever the booking's time holds a time phrase, and its date is present exactly when the parser accepts the cleaned phrase, as the ISO form of what it read |
| Booking.StoredBooking | server/bookingService.js:197-207 | a stored row exists exactly when extraction succeeds; it has a time exactly when one was found, in `HH:MM:00` form, and a date exactly when one was found and parsed, the ISO form of what the parser read |
| Booking.StoredDateIsIso | server/bookingService.js:202 | a stored date is exactly the ISO text of the date the parser read from the cleaned phrase |

## Left out

- Network and database calls: `findBusiness` and the Supabase insert and select of `saveBooking`
  are I/O; only the row that `saveBooking` builds is modelled (`Booking.ToRecord`). Its error
  path (a rejected insert) depends on the database and is not modelled.
- Logging (`console.log`, `console.error`) has no effect on results and is left out.
- The JavaScript `Date` parser and its local-time getters are a parameter `parse` of
  `IsoDate.ConvertToIsoDate`: what text it accepts and which calendar date it reads depend on
  the engine and the time zone. The `try`/`catch` around it is covered by `None` from `parse`.
- `server/calendarService.js`, `server/notificationService.js` and `server/index.js` are not
  part of this model.
- Characters beyond ASCII: the `i` flag is modelled as ASCII case folding, and `toLowerCase` as
  ASCII lower-casing, which is exact for the ASCII words the code compares.
- Payload values other than strings for `summary` and `transcript` are modelled only as far as
  the code reaches them: calling `match` on them fails.
- Requests.StyleRequest: states what a returned item looks like, not when one is returned; when
  it is returned is shown on whole phrases by `Requests.StyleRoundTrip`.
- Requests.PlainRequest: states what a returned item looks like, not when one is returned; when
  it is returned is shown on whole phrases by `Requests.RequestRoundTrip`.
- Schedule.DateAt: states the length and the year of a match, not every branch of the pattern;
  matching of whole date phrases is shown by `Schedule.DatePhraseMatches`.
