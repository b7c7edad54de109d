/**
 * The customer-name cascade of `extractBookingInfo` (server/bookingService.js lines 61-100):
 * three patterns over the summary and two over the transcript, tried in a fixed order, each
 * with its own exclusion list. Only the first occurrence of each pattern is considered.
 */
module Names {
  import opened Optional
  import opened Chars
  import opened Scan

  /** `\s+([A-Z][a-z]+)` under the `i` flag at `p`: a run of two or more letters after spaces. */
  function LettersAfterSpace(s: string, p: nat): (r: Option<string>)
    ensures r.Some? ==> |r.value| >= 2 && AllLetters(r.value)
  {
    var w := RunEnd(s, p, Space);
    if w > p then
      var e := RunEnd(s, w, Letter);
      if e >= w + 2 then Some(s[w..e]) else None
    else None
  }

  /** Rule 1, `^([A-Z][a-z]+)\s+(?:successfully|called)`: only index 0 can match. */
  function LeadingActionAt(s: string, i: nat): (r: Option<string>)
    ensures r.Some? ==> i == 0 && IsCapitalisedWord(r.value)
  {
    if i == 0 && |s| > 0 && IsUpper(s[0]) then
      var e := RunEnd(s, 1, LowerCase);
      var w := RunEnd(s, e, Space);
      if e >= 2 && w > e && (LitAt(s, w, "successfully", false) || LitAt(s, w, "called", false))
      then Some(s[..e])
      else None
    else None
  }

  /** `user,?\s+([A-Z][a-z]+)` under the `i` flag at `u`; the comma is tried first. */
  function UserTail(s: string, u: nat): (r: Option<string>)
    ensures r.Some? ==> |r.value| >= 2 && AllLetters(r.value)
  {
    if LitAt(s, u, "user", true) then
      if u + 4 < |s| && s[u + 4] == ',' then
        LettersAfterSpace(s, u + 5).OrElse(LettersAfterSpace(s, u + 4))
      else LettersAfterSpace(s, u + 4)
    else None
  }

  /** Rule 2, `\b(?:the\s+)?user,?\s+([A-Z][a-z]+)` with the `i` flag; `the` is tried first. */
  function UserCommaAt(s: string, i: nat): (r: Option<string>)
    ensures r.Some? ==> |r.value| >= 2 && AllLetters(r.value)
  {
    if BoundaryAt(s, i) then
      var withThe :=
        if LitAt(s, i, "the", true) then
          var w := RunEnd(s, i + 3, Space);
          if w > i + 3 then UserTail(s, w) else None
        else None;
      withThe.OrElse(UserTail(s, i))
    else None
  }

  /** Rule 3, `\bfor\s+([A-Z][a-z]+)\b`, case-sensitive. */
  function ForNameAt(s: string, i: nat): (r: Option<string>)
    ensures r.Some? ==> IsCapitalisedWord(r.value)
  {
    if BoundaryAt(s, i) && LitAt(s, i, "for", false) then
      var w := RunEnd(s, i + 3, Space);
      if w > i + 3 && w < |s| && IsUpper(s[w]) then
        // [a-z]+ is greedy; a shorter run would end between two letters, where \b fails.
        var e := RunEnd(s, w + 1, LowerCase);
        if e > w + 1 && BoundaryAt(s, e) then Some(s[w..e]) else None
      else None
    else None
  }

  /** The self-introductions of rule 4, in the order of the alternation. */
  const Introductions: seq<string> := ["my name is", "i'm", "call me", "this is"]

  /** The first of `alts` (in order) after which a name follows at `i`. */
  function IntroFrom(s: string, i: nat, alts: seq<string>): (r: Option<string>)
    ensures r.Some? ==> |r.value| >= 2 && AllLetters(r.value)
    decreases |alts|
  {
    if |alts| == 0 then None
    else
      var here := if LitAt(s, i, alts[0], true) then LettersAfterSpace(s, i + |alts[0]|) else None;
      here.OrElse(IntroFrom(s, i, alts[1..]))
  }

  /** Rule 4, `(?:my name is|I'm|call me|this is)\s+([A-Z][a-z]+)` with the `i` flag. */
  function SelfIntroAt(s: string, i: nat): (r: Option<string>)
    ensures r.Some? ==> |r.value| >= 2 && AllLetters(r.value)
  {
    IntroFrom(s, i, Introductions)
  }

  /** `s?\s+([A-Z][a-z]+)` under the `i` flag at `q`; the `s` is tried first. */
  function OptionalS(s: string, q: nat): (r: Option<string>)
    ensures r.Some? ==> |r.value| >= 2 && AllLetters(r.value)
  {
    if q < |s| && SameChar(s[q], 's', true) then
      LettersAfterSpace(s, q + 1).OrElse(LettersAfterSpace(s, q))
    else LettersAfterSpace(s, q)
  }

  /** Rule 5, `name'?s?\s+([A-Z][a-z]+)` with the `i` flag; the apostrophe is tried first. */
  function NamePossessiveAt(s: string, i: nat): (r: Option<string>)
    ensures r.Some? ==> |r.value| >= 2 && AllLetters(r.value)
  {
    if LitAt(s, i, "name", true) then
      var p := i + 4;
      if p < |s| && s[p] == '\'' then OptionalS(s, p + 1).OrElse(OptionalS(s, p))
      else OptionalS(s, p)
    else None
  }

  /** The five rules, named after the phrase each looks for. */
  datatype NameRule = LeadingAction | UserComma | ForName | SelfIntro | NamePossessive

  /** Rules 1 to 3 read the summary. */
  const SummaryRules: seq<NameRule> := [LeadingAction, UserComma, ForName]

  /** Rules 4 and 5 read the transcript. */
  const TranscriptRules: seq<NameRule> := [SelfIntro, NamePossessive]

  /** Rules 1 and 3 compare their capture case-sensitively; the others are case-insensitive. */
  predicate CaseSensitive(r: NameRule) {
    r == LeadingAction || r == ForName
  }

  /** A capitalised capture is a run of at least two letters. */
  lemma CapitalisedLetters(n: Option<string>)
    requires n.Some? ==> IsCapitalisedWord(n.value)
    ensures n.Some? ==> |n.value| >= 2 && AllLetters(n.value)
  {
  }

  /** The pattern of a rule tried at index `i` of `s`. */
  function RuleAt(r: NameRule, s: string, i: nat): (n: Option<string>)
    ensures n.Some? ==> |n.value| >= 2 && AllLetters(n.value)
    ensures n.Some? && CaseSensitive(r) ==> IsCapitalisedWord(n.value)
  {
    match r
    case LeadingAction => var n := LeadingActionAt(s, i); CapitalisedLetters(n); n
    case UserComma => UserCommaAt(s, i)
    case ForName => var n := ForNameAt(s, i); CapitalisedLetters(n); n
    case SelfIntro => SelfIntroAt(s, i)
    case NamePossessive => NamePossessiveAt(s, i)
  }

  /** The capture of the first occurrence of a rule's pattern in `text` (`String.prototype.match`). */
  function RuleCapture(r: NameRule, text: string): (n: Option<string>)
    ensures n.Some? ==>
      exists j :: 0 <= j <= |text| && RuleAt(r, text, j) == n
        && forall k :: 0 <= k < j ==> RuleAt(r, text, k).None?
    ensures n.None? ==> forall k :: 0 <= k <= |text| ==> RuleAt(r, text, k).None?
    ensures n.Some? ==> |n.value| >= 2 && AllLetters(n.value)
    ensures n.Some? && CaseSensitive(r) ==> IsCapitalisedWord(n.value)
  {
    var at := (s: string, i: nat) => RuleAt(r, s, i);
    match FirstFrom(text, 0, at)
    case None =>
      assert forall k :: 0 <= k <= |text| ==> at(text, k) == RuleAt(r, text, k);
      None
    case Some((j, n)) =>
      assert forall k :: 0 <= k <= |text| ==> at(text, k) == RuleAt(r, text, k);
      assert RuleAt(r, text, j) == Some(n);
      Some(n)
  }

  const Weekdays: seq<string> := ["Monday", "Tuesday", "Wednesday", "Thursday", "Friday", "Saturday", "Sunday"]

  /**
   * The exclusion test each rule applies to its capture. Rule 3 lower-cases its capture before
   * comparing with "sam", but since it only captures capitalised words, that excludes exactly
   * "Sam" besides the weekdays.
   */
  predicate Excluded(r: NameRule, n: string)
    ensures r == ForName && IsCapitalisedWord(n) ==> (Excluded(r, n) <==> n == "Sam" || n in Weekdays)
  {
    SamSpelling(n);
    match r
    case LeadingAction => n in Weekdays
    case UserComma => Lower(n) == "called"
    case ForName => Lower(n) == "sam" || n in Weekdays
    case SelfIntro => Lower(n) == "sarah" || Lower(n) == "barbershop"
    case NamePossessive => Lower(n) == "sarah" || Lower(n) == "barbershop"
  }

  /** "Sam" is the only capitalised word whose lower-case form is "sam". */
  lemma SamSpelling(n: string)
    ensures IsCapitalisedWord(n) ==> (Lower(n) == "sam" <==> n == "Sam")
  {
    assert Lower("Sam") == "sam";
    if IsCapitalisedWord(n) && Lower(n) == "sam" {
      CapitalisedUnique(n, "Sam");
    }
  }

  /**
   * What one rule contributes: the capture of the pattern's first occurrence unless that capture
   * is excluded. A later occurrence is never looked at.
   */
  function RuleName(r: NameRule, text: string): (n: Option<string>)
    ensures n.Some? ==> RuleCapture(r, text) == n && !Excluded(r, n.value)
    ensures n.None? ==> RuleCapture(r, text).None? || Excluded(r, RuleCapture(r, text).value)
  {
    match RuleCapture(r, text)
    case None => None
    case Some(c) => if Excluded(r, c) then None else Some(c)
  }

  /** What each rule of `rules` contributes on `text`, in order. */
  function Outcomes(rules: seq<NameRule>, text: string): (r: seq<Option<string>>)
    ensures |r| == |rules|
    ensures forall k :: 0 <= k < |rules| ==> r[k] == RuleName(rules[k], text)
  {
    seq(|rules|, k requires 0 <= k < |rules| => RuleName(rules[k], text))
  }

  /** The rules tried in order; the first that yields a name wins and the rest are not consulted. */
  function Cascade(rules: seq<NameRule>, text: string): (n: Option<string>)
    ensures n.None? <==> forall k :: 0 <= k < |rules| ==> RuleName(rules[k], text).None?
    ensures n.Some? ==>
      exists k :: 0 <= k < |rules| && RuleName(rules[k], text) == n
        && forall j :: 0 <= j < k ==> RuleName(rules[j], text).None?
  {
    var outcomes := Outcomes(rules, text);
    FirstSome(outcomes)
  }

  /** A name any rule of the cascade can return: a run of two or more ASCII letters. */
  lemma CascadeShape(rules: seq<NameRule>, text: string)
    ensures Cascade(rules, text).Some? ==>
      |Cascade(rules, text).value| >= 2 && AllLetters(Cascade(rules, text).value)
  {
    var n := Cascade(rules, text);
    if n.Some? {
      var k :| 0 <= k < |rules| && RuleName(rules[k], text) == n
        && forall j :: 0 <= j < k ==> RuleName(rules[j], text).None?;
      assert RuleCapture(rules[k], text) == n;
    }
  }
  /**
   * The cascade's name is the capture of a rule that is not excluded, and every earlier rule's
   * capture is missing or excluded.
   */
  lemma CascadeFirst(rules: seq<NameRule>, text: string)
    ensures Cascade(rules, text).Some? ==>
      exists k :: 0 <= k < |rules| && RuleCapture(rules[k], text) == Cascade(rules, text)
        && !Excluded(rules[k], Cascade(rules, text).value)
        && forall j :: 0 <= j < k ==>
          RuleCapture(rules[j], text).None? || Excluded(rules[j], RuleCapture(rules[j], text).value)
  {
    var n := Cascade(rules, text);
    if n.Some? {
      var k :| 0 <= k < |rules| && RuleName(rules[k], text) == n
        && forall j :: 0 <= j < k ==> RuleName(rules[j], text).None?;
      assert RuleCapture(rules[k], text) == n;
    }
  }

  /**
   * The name as the summary rules find it: the first capture of a rule, tried in order, that
   * is not excluded; none when every rule's first capture is missing or excluded.
   */
  function SummaryName(summary: string): (n: Option<string>)
    ensures n.Some? ==> |n.value| >= 2 && AllLetters(n.value)
    ensures n.None? <==> forall k :: 0 <= k < |SummaryRules| ==>
      RuleCapture(SummaryRules[k], summary).None? || Excluded(SummaryRules[k], RuleCapture(SummaryRules[k], summary).value)
    ensures n.Some? ==>
      exists k :: 0 <= k < |SummaryRules| && RuleCapture(SummaryRules[k], summary) == n
        && !Excluded(SummaryRules[k], n.value)
        && forall j :: 0 <= j < k ==>
          RuleCapture(SummaryRules[j], summary).None? || Excluded(SummaryRules[j], RuleCapture(SummaryRules[j], summary).value)
  {
    CascadeShape(SummaryRules, summary);
    CascadeFirst(SummaryRules, summary);
    Cascade(SummaryRules, summary)
  }

  /** The name as the transcript rules find it, in the same way. */
  function TranscriptName(transcript: string): (n: Option<string>)
    ensures n.Some? ==> |n.value| >= 2 && AllLetters(n.value)
    ensures n.None? <==> forall k :: 0 <= k < |TranscriptRules| ==>
      RuleCapture(TranscriptRules[k], transcript).None?
      || Excluded(TranscriptRules[k], RuleCapture(TranscriptRules[k], transcript).value)
    ensures n.Some? ==>
      exists k :: 0 <= k < |TranscriptRules| && RuleCapture(TranscriptRules[k], transcript) == n
        && !Excluded(TranscriptRules[k], n.value)
        && forall j :: 0 <= j < k ==>
          RuleCapture(TranscriptRules[j], transcript).None? || Excluded(TranscriptRules[j], RuleCapture(TranscriptRules[j], transcript).value)
  {
    CascadeShape(TranscriptRules, transcript);
    CascadeFirst(TranscriptRules, transcript);
    Cascade(TranscriptRules, transcript)
  }

  /** Every weekday is spelled as a capitalised word. */
  lemma WeekdayCapitalised(w: string)
    requires w in Weekdays
    ensures IsCapitalisedWord(w)
  {
  }

  /**
   * Rules 1 and 3 compare case-sensitively, but since they only capture capitalised words, no
   * spelling of a weekday gets through them.
   */
  lemma {:induction false} CaseSensitiveRulesRejectWeekdays(r: NameRule, text: string, w: string)
    requires r == LeadingAction || r == ForName
    requires w in Weekdays
    ensures RuleName(r, text) != Some(w)
    ensures RuleName(r, text).Some? ==> Lower(RuleName(r, text).value) != Lower(w)
  {
    if RuleName(r, text).Some? && Lower(RuleName(r, text).value) == Lower(w) {
      WeekdayCapitalised(w);
      CapitalisedUnique(RuleName(r, text).value, w);
      assert false;
    }
  }
}

/** Worked cases of the name cascade. */
module NamesExamples {
  import opened Optional
  import opened Chars
  import opened Scan
  import opened Names

  lemma JohnRun()
    ensures RunEnd("John called to book", 1, LowerCase) == 4
  {
  }

  lemma JohnSpace()
    ensures RunEnd("John called to book", 4, Space) == 5
  {
    var s := "John called to book";
    assert s[4] == ' ' && s[5] == 'c';
    SpaceBeforeLetter(s, 4);
  }

  lemma JohnCalled()
    ensures LitAt("John called to book", 5, "called", false)
  {
  }

  lemma JohnCalledMatches()
    ensures LeadingActionAt("John called to book", 0) == Some("John")
  {
    var s := "John called to book";
    JohnRun();
    JohnSpace();
    JohnCalled();
    assert s[..4] == "John";
  }

  lemma JohnCalledCapture()
    ensures RuleCapture(LeadingAction, "John called to book") == Some("John")
  {
    JohnCalledMatches();
    assert RuleAt(LeadingAction, "John called to book", 0) == Some("John");
  }

  /** A summary that opens with the customer's name and an action verb. */
  lemma JohnNotWeekday()
    ensures !Excluded(LeadingAction, "John")
  {
    assert "John"[0] == 'J';
  }

  lemma JohnRuleName()
    ensures RuleName(LeadingAction, "John called to book") == Some("John")
  {
    JohnCalledCapture();
    JohnNotWeekday();
  }

  lemma LeadingName()
    ensures SummaryName("John called to book") == Some("John")
  {
    JohnRuleName();
    var outcomes := Outcomes(SummaryRules, "John called to book");
    assert outcomes[0] == Some("John");
    assert FirstSome(outcomes) == outcomes[0];
  }

  lemma LaterForMatches()
    ensures ForNameAt("for Sam for Mike", 8) == Some("Mike")
  {
    var s := "for Sam for Mike";
    assert s[8..11] == "for";
    LitHere(s, 8, "for", false);
    assert s[11] == ' ' && s[12] == 'M';
    SpaceBeforeLetter(s, 11);
    assert s[13] == 'i' && s[14] == 'k' && s[15] == 'e';
    RunEndAt(s, 13, 16, LowerCase);
    assert s[12..16] == "Mike";
  }

  lemma FirstForMatches()
    ensures ForNameAt("for Sam for Mike", 0) == Some("Sam")
  {
    var s := "for Sam for Mike";
    assert s[0..3] == "for";
    LitHere(s, 0, "for", false);
    assert s[3] == ' ' && s[4] == 'S';
    SpaceBeforeLetter(s, 3);
    assert s[5] == 'a' && s[6] == 'm' && s[7] == ' ';
    RunEndAt(s, 5, 7, LowerCase);
    assert s[4..7] == "Sam";
  }

  lemma FirstForCapture()
    ensures RuleCapture(ForName, "for Sam for Mike") == Some("Sam")
  {
    FirstForMatches();
    assert RuleAt(ForName, "for Sam for Mike", 0) == Some("Sam");
  }

  /**
   * Only the first `for <Name>` is looked at: when it names the shop's own assistant the rule
   * yields nothing, even though a later occurrence names the customer.
   */
  lemma FirstOccurrenceOnly()
    ensures ForNameAt("for Sam for Mike", 8) == Some("Mike")
    ensures RuleName(ForName, "for Sam for Mike") == None
  {
    LaterForMatches();
    FirstForCapture();
    SamExcluded();
  }

  /** The shop's assistant is excluded from the `for <Name>` rule. */
  lemma SamExcluded()
    ensures Excluded(ForName, "Sam")
  {
    assert Lower("Sam") == "sam";
  }
}
