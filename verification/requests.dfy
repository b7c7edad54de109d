/**
 * The special-request extractor (`extractBookingInfo`, server/bookingService.js lines 132-165):
 * the summary is cut at its first sentence break, and three patterns are tried on that window
 * in turn until one yields a non-empty request.
 */
module Requests {
  import opened Optional
  import opened Chars
  import opened Scan

  /** The text `lit` appears in `s` at `i`, character for character. */
  predicate TextAt(s: string, i: nat, lit: string) {
    i + |lit| <= |s| && s[i..i + |lit|] == lit
  }

  /** A case-sensitive literal is the text itself. */
  lemma ExactLit(s: string, i: nat, lit: string)
    ensures LitAt(s, i, lit, false) <==> TextAt(s, i, lit)
  {
    if TextAt(s, i, lit) {
      forall k | 0 <= k < |lit|
        ensures SameChar(s[i + k], lit[k], false)
      {
        assert s[i..i + |lit|][k] == lit[k];
      }
    }
  }

  /**
   * `\. The appointment|\.  The|The appointment` at `i`. The pattern has no `i` flag, so the
   * break is one of the three texts exactly as written, in this case.
   */
  predicate SeparatorAt(s: string, i: nat)
    ensures SeparatorAt(s, i) <==>
      TextAt(s, i, ". The appointment") || TextAt(s, i, ".  The") || TextAt(s, i, "The appointment")
  {
    ExactLit(s, i, ". The appointment");
    ExactLit(s, i, ".  The");
    ExactLit(s, i, "The appointment");
    LitAt(s, i, ". The appointment", false) || LitAt(s, i, ".  The", false)
    || LitAt(s, i, "The appointment", false)
  }

  /** `summary.split(...)[0]`: the summary up to its first sentence break, or all of it. */
  function Window(summary: string): (w: string)
    ensures w <= summary
    ensures forall k :: 0 <= k < |w| ==> !SeparatorAt(summary, k)
    ensures |w| < |summary| ==> SeparatorAt(summary, |w|)
  {
    match FindFrom(summary, 0, SeparatorAt)
    case None => summary
    case Some(j) => summary[..j]
  }

  /** `s[a..b]` is `s` without its leading and trailing white space. */
  predicate Trimmed(s: string, a: nat, b: nat) {
    a <= b <= |s|
    && (forall k :: 0 <= k < a ==> IsSpace(s[k]))
    && (forall k :: b <= k < |s| ==> IsSpace(s[k]))
    && (a < b ==> !IsSpace(s[a]) && !IsSpace(s[b - 1]))
  }

  /** The end of `s[a..b]` once its trailing white space is dropped. */
  function TrimEnd(s: string, a: nat, b: nat): (e: nat)
    requires a <= b <= |s|
    ensures a <= e <= b
    ensures forall k :: e <= k < b ==> IsSpace(s[k])
    ensures e > a ==> !IsSpace(s[e - 1])
    decreases b
  {
    if b > a && IsSpace(s[b - 1]) then TrimEnd(s, a, b - 1) else b
  }

  /** `String.prototype.trim`, which strips the same characters `\s` matches. */
  function Trim(s: string): (r: string)
    ensures exists a: nat, b: nat :: Trimmed(s, a, b) && r == s[a..b]
  {
    var a := RunEnd(s, 0, Space);
    var b := TrimEnd(s, a, |s|);
    assert Trimmed(s, a, b);
    s[a..b]
  }

  /** A stretch of text, from `start` up to `end`. */
  datatype Span = Span(start: nat, end: nat)

  /** What may follow the item of tier 2 and of tier 3. */
  datatype Ending =
    | StyleEnding    // (?:\s+for|\.|,|$)
    | RequestEnding  // (?:\.|,|for)

  predicate EndingAt(s: string, e: nat, t: Ending) {
    var stop := e < |s| && (s[e] == '.' || s[e] == ',');
    match t
    case StyleEnding =>
      var f := RunEnd(s, e, Space);
      (f > e && LitAt(s, f, "for", true)) || stop || e == |s|
    case RequestEnding => stop || LitAt(s, e, "for", true)
  }

  /** A captured item: letters and white space, followed by its ending. */
  predicate ItemSpan(s: string, sp: Span, t: Ending) {
    sp.start < sp.end <= |s|
    && (forall k :: sp.start <= k < sp.end ==> InClass(s[k], LetterOrSpace))
    && EndingAt(s, sp.end, t)
  }

  /** `([a-z\s]+?)` and then the ending, from `b`: the shortest item the ending can follow. */
  function LazyItem(s: string, b: nat, t: Ending): (r: Option<Span>)
    ensures r.Some? ==> ItemSpan(s, r.value, t) && r.value.start == b
    ensures r.Some? ==> forall e :: b < e < r.value.end ==> !EndingAt(s, e, t)
    ensures r.None? ==> forall e :: b < e <= RunEnd(s, b, LetterOrSpace) ==> !EndingAt(s, e, t)
  {
    var run := RunEnd(s, b, LetterOrSpace);
    var ending := (x: string, e: nat) => EndingAt(x, e, t);
    var found := FindFrom(s, b + 1, ending);
    assert forall e :: ending(s, e) == EndingAt(s, e, t);
    match found
    case Some(e) => if e <= run then Some(Span(b, e)) else None
    case None => None
  }

  /**
   * The item tried from `b`, then from each earlier index down to `lo`: the order in which
   * backtracking gives back the characters of a greedy `\s+` that ended at `b`.
   */
  function ItemBackoff(s: string, lo: nat, b: nat, t: Ending): (r: Option<Span>)
    ensures r.Some? ==> ItemSpan(s, r.value, t) && lo <= r.value.start <= b
    decreases b
  {
    if b < lo then None
    else match LazyItem(s, b, t)
      case Some(sp) => Some(sp)
      case None => if b == lo then None else ItemBackoff(s, lo, b - 1, t)
  }

  /** `(?:a\s+)?` and then the item, at `x`: the article is tried first. */
  function ArticleItem(s: string, x: nat, t: Ending): (r: Option<Span>)
    ensures r.Some? ==> ItemSpan(s, r.value, t) && x <= r.value.start
  {
    var withArticle :=
      if x < |s| && Fold(s[x]) == 'a' then ItemBackoff(s, x + 2, RunEnd(s, x + 1, Space), t) else None;
    withArticle.OrElse(LazyItem(s, x, t))
  }

  /** The article and the item tried after `x`, `x - 1`, ..., `lo`. */
  function SpaceBackoff(s: string, lo: nat, x: nat, t: Ending): (r: Option<Span>)
    ensures r.Some? ==> ItemSpan(s, r.value, t) && lo <= r.value.start
    decreases x
  {
    if x < lo then None
    else match ArticleItem(s, x, t)
      case Some(sp) => Some(sp)
      case None => if x == lo then None else SpaceBackoff(s, lo, x - 1, t)
  }

  /** `\s+(?:a\s+)?([a-z\s]+?)` and then the ending, at `p`. */
  function ItemAfterSpaces(s: string, p: nat, t: Ending): (r: Option<Span>)
    ensures r.Some? ==> ItemSpan(s, r.value, t) && p < r.value.start
  {
    SpaceBackoff(s, p + 1, RunEnd(s, p, Space), t)
  }

  /** The quoted text of tier 1: after a `"`, free of `"`, and closed by one. */
  predicate QuoteSpan(s: string, sp: Span) {
    1 <= sp.start < sp.end < |s| && s[sp.start - 1] == '"' && s[sp.end] == '"'
    && forall k :: sp.start <= k < sp.end ==> s[k] != '"'
  }

  /** `"([^"]+)"` at `q`. */
  function QuoteAt(s: string, q: nat): (r: Option<Span>)
    ensures r.Some? ==> QuoteSpan(s, r.value) && r.value.start == q + 1
  {
    if q < |s| && s[q] == '"' then
      var e := RunEnd(s, q + 1, NotQuote);
      if q + 1 < e < |s| then Some(Span(q + 1, e)) else None
    else None
  }

  /** Tier 1, `requesting (?:a\s+)?"([^"]+)"` under the `i` flag, at `i`. */
  function QuotedAt(s: string, i: nat): (r: Option<Span>)
    ensures r.Some? ==> QuoteSpan(s, r.value) && i + 12 <= r.value.start
  {
    if LitAt(s, i, "requesting ", true) then
      var p := i + 11;
      var withArticle :=
        if p < |s| && Fold(s[p]) == 'a' then
          var q := RunEnd(s, p + 1, Space);
          if q > p + 1 then QuoteAt(s, q) else None
        else None;
      withArticle.OrElse(QuoteAt(s, p))
    else None
  }

  /** Tier 2, `(?:haircut|trim)\s+with\s+(?:a\s+)?([a-z\s]+?)(?:\s+for|\.|,|$)` under the `i` flag, at `i`. */
  function StyleAt(s: string, i: nat): (r: Option<Span>)
    ensures r.Some? ==> ItemSpan(s, r.value, StyleEnding) && i + 8 < r.value.start
  {
    match VerbEnd(s, i)
    case None => None
    case Some(h) => StyleAfterVerb(s, h)
  }

  /** `(?:haircut|trim)` at `i`: where the verb ends. */
  function VerbEnd(s: string, i: nat): (r: Option<nat>)
    ensures r.Some? ==> r.value == i + 7 || r.value == i + 4
  {
    if LitAt(s, i, "haircut", true) then Some(i + 7)
    else if LitAt(s, i, "trim", true) then Some(i + 4)
    else None
  }

  /** The rest of tier 2 after the verb ends at `h`: `\s+with`, then the item. */
  function StyleAfterVerb(s: string, h: nat): (r: Option<Span>)
    ensures r.Some? ==> ItemSpan(s, r.value, StyleEnding) && h + 4 < r.value.start
  {
    var u := RunEnd(s, h, Space);
    if u > h && LitAt(s, u, "with", true) then ItemAfterSpaces(s, u + 4, StyleEnding) else None
  }

  /** Tier 3, `requesting\s+(?:a\s+)?([a-z\s]+?)(?:\.|,|for)` under the `i` flag, at `i`. */
  function RequestAt(s: string, i: nat): (r: Option<Span>)
    ensures r.Some? ==> ItemSpan(s, r.value, RequestEnding) && i + 10 < r.value.start
  {
    if LitAt(s, i, "requesting", true) then ItemAfterSpaces(s, i + 10, RequestEnding) else None
  }

  /** The words that make tier 2 reject its item: pronouns and names of children. */
  const StyleStopWords: seq<string> := ["his", "her", "their", "my", "the", "sammy", "bobby", "johnny"]

  /** The words that make tier 3 reject its item. */
  const RequestStopWords: seq<string> := ["haircut", "appointment", "his", "her"]

  /** `\b(w1|w2|...)\b` at `k`, under the `i` flag. */
  predicate WholeWordAt(s: string, k: nat, words: seq<string>) {
    BoundaryAt(s, k)
    && exists n :: 0 <= n < |words| && LitAt(s, k, words[n], true) && BoundaryAt(s, k + |words[n]|)
  }

  /**
   * `item.match(/\b(w1|w2|...)\b/i)` finds something: one of the words stands as a whole word
   * somewhere in the item, in any case. The leftmost scan finds a match exactly then.
   */
  predicate Mentions(item: string, words: seq<string>)
    ensures Mentions(item, words) <==> FindFrom(item, 0, WordsAt(words)).Some?
  {
    MentionsScan(item, words);
    exists k :: 0 <= k <= |item| && WholeWordAt(item, k, words)
  }

  /** The matcher of `\b(w1|w2|...)\b/i`. */
  function WordsAt(words: seq<string>): (string, nat) -> bool {
    (s: string, k: nat) => WholeWordAt(s, k, words)
  }

  lemma MentionsScan(item: string, words: seq<string>)
    ensures (exists k :: 0 <= k <= |item| && WholeWordAt(item, k, words))
      <==> FindFrom(item, 0, WordsAt(words)).Some?
  {
    match FindFrom(item, 0, WordsAt(words))
    case Some(j) =>
      assert WordsAt(words)(item, j);
    case None =>
      forall k | 0 <= k <= |item|
        ensures !WholeWordAt(item, k, words)
      {
        assert !WordsAt(words)(item, k);
      }
  }

  /** Trimmed text of letters and white space, as tiers 2 and 3 produce. */
  predicate PlainText(x: string) {
    (forall k :: 0 <= k < |x| ==> InClass(x[k], LetterOrSpace))
    && (|x| > 0 ==> !IsSpace(x[0]) && !IsSpace(x[|x| - 1]))
  }

  /** `x` is a stretch of `w`. */
  predicate Within(x: string, w: string) {
    exists a, b :: 0 <= a <= b <= |w| && x == w[a..b]
  }

  /** A stretch of a prefix is a stretch of the whole. */
  lemma WithinPrefix(x: string, w: string, s: string)
    requires Within(x, w) && w <= s
    ensures Within(x, s)
  {
    var a, b :| 0 <= a <= b <= |w| && x == w[a..b];
    assert w[a..b] == s[a..b];
  }

  /** The trimmed item of a tier 2 or tier 3 span is plain text taken from `w`. */
  lemma TrimmedItem(w: string, sp: Span, t: Ending)
    requires ItemSpan(w, sp, t)
    ensures PlainText(Trim(w[sp.start..sp.end])) && Within(Trim(w[sp.start..sp.end]), w)
  {
    var x := w[sp.start..sp.end];
    forall k | 0 <= k < |x| ensures InClass(x[k], LetterOrSpace) {
      assert x[k] == w[sp.start + k];
    }
    TrimPlain(x);
    TrimWithin(w, sp.start, sp.end);
  }

  /** Trimming text of letters and white space leaves plain text. */
  lemma TrimPlain(x: string)
    requires forall k :: 0 <= k < |x| ==> InClass(x[k], LetterOrSpace)
    ensures PlainText(Trim(x))
  {
    var y := Trim(x);
    var a: nat, b: nat :| Trimmed(x, a, b) && y == x[a..b];
    assert forall k :: 0 <= k < |y| ==> y[k] == x[a + k];
  }

  /** Where the trimmed text sits. */
  lemma TrimSpan(x: string) returns (a: nat, b: nat)
    ensures a <= b <= |x| && Trimmed(x, a, b) && Trim(x) == x[a..b]
  {
    var t := Trim(x);
    var a': nat, b': nat :| Trimmed(x, a', b') && t == x[a'..b'];
    a, b := a', b';
  }

  /** The trimmed text of a stretch of `w` is a stretch of `w`. */
  lemma TrimWithin(w: string, i: nat, j: nat)
    requires i <= j <= |w|
    ensures Within(Trim(w[i..j]), w)
  {
    var a, b := TrimSpan(w[i..j]);
    SliceOfSlice(w, i, j, i + a, i + b);
  }

  /** Tier 1: the text of the first quoted request. */
  function QuotedRequest(w: string): (r: Option<string>)
    ensures r.None? <==> forall i :: 0 <= i <= |w| ==> QuotedAt(w, i).None?
    ensures r.Some? ==> |r.value| > 0 && (forall k :: 0 <= k < |r.value| ==> r.value[k] != '"')
    ensures r.Some? ==> Within(r.value, w)
  {
    match FirstFrom(w, 0, QuotedAt)
    case None => None
    case Some((_, sp)) =>
      QuotedText(w, sp);
      Some(w[sp.start..sp.end])
  }

  /** The kept request is the text between the quotes of the leftmost quoted phrase. */
  lemma QuotedRequestLeftmost(w: string, i: nat)
    requires i <= |w| && QuotedAt(w, i).Some?
    requires forall k :: 0 <= k < i ==> QuotedAt(w, k).None?
    ensures QuotedRequest(w) == Some(w[QuotedAt(w, i).value.start..QuotedAt(w, i).value.end])
  {
    FirstIsLeftmost(w, i, QuotedAt);
  }

  /** The quoted text is non-empty, free of `"`, and taken from `w`. */
  lemma QuotedText(w: string, sp: Span)
    requires QuoteSpan(w, sp)
    ensures var x := w[sp.start..sp.end];
      |x| > 0 && (forall k :: 0 <= k < |x| ==> x[k] != '"') && Within(x, w)
  {
    var x := w[sp.start..sp.end];
    assert forall k :: 0 <= k < |x| ==> x[k] == w[sp.start + k];
  }

  /** Tier 2: the trimmed style of the first `haircut with` phrase, unless it names a person. */
  function StyleRequest(w: string): (r: Option<string>)
    ensures r.Some? ==> PlainText(r.value) && !Mentions(r.value, StyleStopWords) && Within(r.value, w)
  {
    match FirstFrom(w, 0, StyleAt)
    case None => None
    case Some((_, sp)) =>
      TrimmedItem(w, sp, StyleEnding);
      var item := Trim(w[sp.start..sp.end]);
      if Mentions(item, StyleStopWords) then None else Some(item)
  }

  /** Tier 3: the trimmed item of the first unquoted `requesting` phrase, unless it is a generic word. */
  function PlainRequest(w: string): (r: Option<string>)
    ensures r.Some? ==> PlainText(r.value) && !Mentions(r.value, RequestStopWords) && Within(r.value, w)
  {
    match FirstFrom(w, 0, RequestAt)
    case None => None
    case Some((_, sp)) =>
      TrimmedItem(w, sp, RequestEnding);
      var item := Trim(w[sp.start..sp.end]);
      if Mentions(item, RequestStopWords) then None else Some(item)
  }

  /** JavaScript truthiness of the request found so far: a string, and not the empty one. */
  predicate Filled(o: Option<string>) {
    o.Some? && o.value != ""
  }

  /** `if (!specialRequests) { ... }`: a later tier runs only while nothing truthy is held. */
  function Fallback(held: Option<string>, next: Option<string>): (r: Option<string>)
    ensures Filled(held) ==> r == held
    ensures !Filled(held) && next.Some? ==> r == next
    ensures next.None? ==> r == held
  {
    if Filled(held) then held else next.OrElse(held)
  }

  /** The special request of the summary. */
  function ExtractRequests(summary: string): (r: Option<string>)
    ensures var w := Window(summary);
      r.Some? ==> r == QuotedRequest(w) || r == StyleRequest(w) || r == PlainRequest(w)
    ensures var w := Window(summary);
      QuotedRequest(w).Some? ==> r == QuotedRequest(w)
    ensures var w := Window(summary);
      QuotedRequest(w).None? && Filled(StyleRequest(w)) ==> r == StyleRequest(w)
    ensures var w := Window(summary);
      QuotedRequest(w).None? && !Filled(StyleRequest(w)) && PlainRequest(w).Some? ==> r == PlainRequest(w)
    ensures var w := Window(summary);
      QuotedRequest(w).None? && PlainRequest(w).None? ==> r == StyleRequest(w)
    ensures r.Some? ==> Within(r.value, summary)
  {
    var w := Window(summary);
    var r := Tiers(w);
    if r.Some? then WithinPrefix(r.value, w, summary); r else r
  }

  /** The three tiers on the window `w`, each consulted while nothing truthy is held. */
  function Tiers(w: string): (r: Option<string>)
    ensures r.Some? ==> r == QuotedRequest(w) || r == StyleRequest(w) || r == PlainRequest(w)
    ensures QuotedRequest(w).Some? ==> r == QuotedRequest(w)
    ensures QuotedRequest(w).None? && Filled(StyleRequest(w)) ==> r == StyleRequest(w)
    ensures QuotedRequest(w).None? && !Filled(StyleRequest(w)) && PlainRequest(w).Some? ==> r == PlainRequest(w)
    ensures QuotedRequest(w).None? && PlainRequest(w).None? ==> r == StyleRequest(w)
    ensures r.Some? ==> Within(r.value, w)
  {
    Precedence(QuotedRequest(w), StyleRequest(w), PlainRequest(w))
  }

  /** Three tiers' results combined: each later one is consulted while nothing truthy is held. */
  function Precedence(quoted: Option<string>, style: Option<string>, plain: Option<string>): (r: Option<string>)
    requires quoted.Some? ==> Filled(quoted)
    ensures r.Some? ==> r == quoted || r == style || r == plain
    ensures quoted.Some? ==> r == quoted
    ensures quoted.None? && Filled(style) ==> r == style
    ensures quoted.None? && !Filled(style) && plain.Some? ==> r == plain
    ensures quoted.None? && plain.None? ==> r == style
  {
    Fallback(Fallback(quoted, style), plain)
  }
  /** A sentence break inside a prefix is a sentence break of the whole text. */
  lemma SeparatorInPrefix(s: string, n: nat, k: nat)
    requires k < n <= |s|
    ensures SeparatorAt(s[..n], k) ==> SeparatorAt(s, k)
  {
    LitAtPrefix(s, n, k, ". The appointment", false);
    LitAtPrefix(s, n, k, ".  The", false);
    LitAtPrefix(s, n, k, "The appointment", false);
  }

  /** Cutting the window again changes nothing: no sentence break starts inside it. */
  lemma WindowIdempotent(summary: string)
    ensures Window(Window(summary)) == Window(summary)
  {
    var w := Window(summary);
    assert w == summary[..|w|];
    forall k | 0 <= k <= |w| ensures !SeparatorAt(w, k) {
      if k < |w| {
        SeparatorInPrefix(summary, |w|, k);
      }
    }
    assert FindFrom(w, 0, SeparatorAt).None?;
  }

  /** Text without white space at either end is left as it is by `trim`. */
  lemma TrimKeeps(s: string)
    requires |s| > 0 ==> !IsSpace(s[0]) && !IsSpace(s[|s| - 1])
    ensures Trim(s) == s
  {
    var a, b := TrimSpan(s);
    if |s| > 0 {
      assert !IsSpace(s[0]) && !IsSpace(s[|s| - 1]);
      assert a == 0 && b == |s|;
    }
  }

  /** Trimming twice is trimming once. */
  lemma TrimIdempotent(s: string)
    ensures Trim(Trim(s)) == Trim(s)
  {
    var t := Trim(s);
    var a, b := TrimSpan(s);
    if |t| > 0 {
      assert t[0] == s[a] && t[|t| - 1] == s[b - 1];
    }
    TrimKeeps(t);
  }
  /** No sentence break starts anywhere in `x`. */
  predicate NoBreak(x: string) {
    forall k :: 0 <= k < |x| ==> !SeparatorAt(x, k)
  }

  /** A quoted request as a summary phrases it. */
  function QuotedPhrase(c: string): string {
    "requesting \"" + c + "\""
  }

  /** A literal that occurs before a character `s[b]` matching none of its own ends by `b`. */
  lemma LitBefore(s: string, k: nat, b: nat, lit: string, ci: bool)
    requires k <= b < |s|
    ensures LitAt(s, k, lit, ci) && (forall n :: 0 <= n < |lit| ==> !SameChar(s[b], lit[n], ci)) ==>
      k + |lit| <= b
  {
    if LitAt(s, k, lit, ci) && k + |lit| > b {
      LitAtChar(s, k, lit, ci, b - k);
    }
  }

  /** A literal without `"` found in the quoted part of a quoted phrase is found in the quoted text. */
  lemma LitInQuoted(c: string, k: nat, lit: string)
    requires 12 <= k < |QuotedPhrase(c)| && |lit| > 0 && (forall n :: 0 <= n < |lit| ==> lit[n] != '"')
    ensures LitAt(QuotedPhrase(c), k, lit, false) ==> k - 12 < |c| && LitAt(c, k - 12, lit, false)
  {
    var s := QuotedPhrase(c);
    if LitAt(s, k, lit, false) {
      var b := |s| - 1;
      assert s[b] == '"';
      LitBefore(s, k, b, lit, false);
      assert s[12..b] == c;
      LitAtSlice(s, 12, b, k, lit, false);
    }
  }

  /** No sentence break starts in the `requesting "` that opens a quoted phrase. */
  lemma QuotedPhraseHead(c: string, k: nat)
    requires k < 12
    ensures !SeparatorAt(QuotedPhrase(c), k)
  {
    var s := QuotedPhrase(c);
    assert s[k] != '.' && s[k] != 'T';
    assert !LitAt(s, k, ". The appointment", false) by {
      assert !SameChar(s[k], '.', false);
    }
    assert !LitAt(s, k, ".  The", false) by {
      assert !SameChar(s[k], '.', false);
    }
    assert !LitAt(s, k, "The appointment", false) by {
      assert !SameChar(s[k], 'T', false);
    }
  }

  /** A quoted phrase holds no sentence break when its quoted text holds none. */
  lemma QuotedPhraseNoBreak(c: string, k: nat)
    requires NoBreak(c) && (forall n :: 0 <= n < |c| ==> c[n] != '"')
    requires k < |QuotedPhrase(c)|
    ensures !SeparatorAt(QuotedPhrase(c), k)
  {
    if k < 12 {
      QuotedPhraseHead(c, k);
    } else {
      SeparatorInQuoted(c, k);
      if k - 12 < |c| {
        assert !SeparatorAt(c, k - 12);
      }
    }
  }

  /** A sentence break after the opening `requesting "` lies within the quoted text. */
  lemma SeparatorInQuoted(c: string, k: nat)
    requires 12 <= k < |QuotedPhrase(c)| && (forall n :: 0 <= n < |c| ==> c[n] != '"')
    ensures SeparatorAt(QuotedPhrase(c), k) ==> k - 12 < |c| && SeparatorAt(c, k - 12)
  {
    LitInQuoted(c, k, ". The appointment");
    LitInQuoted(c, k, ".  The");
    LitInQuoted(c, k, "The appointment");
  }
  /** The opening `requesting ` of a quoted phrase is found, whatever follows it. */
  lemma RequestingAtStart(s: string)
    requires |s| >= 11 && s[..11] == "requesting "
    ensures LitAt(s, 0, "requesting ", true) && LitAt(s, 0, "requesting", true)
  {
    forall n | 0 <= n < 11 ensures SameChar(s[n], "requesting "[n], true) {
      assert s[n] == s[..11][n];
    }
  }

  /** Tier 1 reads the quoted text of a quoted phrase at its start. */
  lemma QuotedAtStart(c: string)
    requires |c| > 0 && (forall n :: 0 <= n < |c| ==> c[n] != '"')
    ensures QuotedAt(QuotedPhrase(c), 0) == Some(Span(12, 12 + |c|))
  {
    var s := QuotedPhrase(c);
    assert s[..11] == "requesting ";
    RequestingAtStart(s);
    assert s[11] == '"' && Fold(s[11]) != 'a';
    forall j | 12 <= j < 12 + |c| ensures InClass(s[j], NotQuote) {
      assert s[j] == c[j - 12];
    }
    assert s[12 + |c|] == '"';
    RunEndAt(s, 12, 12 + |c|, NotQuote);
  }

  /** A quoted request is read back whole: tier 1 returns exactly the quoted text. */
  lemma QuotedRoundTrip(c: string)
    requires |c| > 0 && (forall n :: 0 <= n < |c| ==> c[n] != '"') && NoBreak(c)
    ensures ExtractRequests(QuotedPhrase(c)) == Some(c)
  {
    var s := QuotedPhrase(c);
    assert Window(s) == s by {
      forall k | 0 <= k < |s| ensures !SeparatorAt(s, k) {
        QuotedPhraseNoBreak(c, k);
      }
    }
    QuotedAtStart(c);
    assert FirstFrom(s, 0, QuotedAt) == Some((0, Span(12, 12 + |c|)));
    assert s[12..12 + |c|] == c;
  }
  /** A style request as a summary phrases it. */
  function StylePhrase(style: string): string {
    "haircut with a " + style
  }

  /** Within a run of letters the style item has no ending; the end of the text is one. */
  lemma LettersToEnd(s: string, b: nat)
    requires b < |s| && forall k :: b <= k < |s| ==> IsLetter(s[k])
    ensures LazyItem(s, b, StyleEnding) == Some(Span(b, |s|))
  {
    forall e | b < e < |s| ensures !EndingAt(s, e, StyleEnding) {
      assert RunEnd(s, e, Space) == e;
    }
    assert EndingAt(s, |s|, StyleEnding);
    assert RunEnd(s, b, LetterOrSpace) == |s| by {
      RunEndAt(s, b, |s|, LetterOrSpace);
    }
  }

  /** Tier 2 reads the style of a style phrase at its start, skipping the article. */
  lemma StyleAtStart(style: string)
    requires |style| > 0 && AllLetters(style)
    ensures StyleAt(StylePhrase(style), 0) == Some(Span(15, |StylePhrase(style)|))
  {
    var s := StylePhrase(style);
    StyleHead(style, s);
    StyleArticle(style, s);
    StyleTail(style, s);
    StyleSteps(s);
  }

  /** Tier 2 at the start of text laid out as `haircut with a ` and an item running to the end. */
  lemma StyleSteps(s: string)
    requires LitAt(s, 0, "haircut", true) && RunEnd(s, 7, Space) == 8 && LitAt(s, 8, "with", true)
    requires RunEnd(s, 12, Space) == 13 && 13 < |s| && Fold(s[13]) == 'a' && RunEnd(s, 14, Space) == 15
    requires LazyItem(s, 15, StyleEnding) == Some(Span(15, |s|))
    ensures StyleAt(s, 0) == Some(Span(15, |s|))
  {
    ArticleFirst(s, 13, 15, StyleEnding);
    assert ItemAfterSpaces(s, 12, StyleEnding) == Some(Span(15, |s|));
    StyleVerb(s);
  }

  /** After `haircut with` at the start, tier 2 reads the item that follows. */
  lemma StyleVerb(s: string)
    requires LitAt(s, 0, "haircut", true) && RunEnd(s, 7, Space) == 8 && LitAt(s, 8, "with", true)
    ensures StyleAt(s, 0) == ItemAfterSpaces(s, 12, StyleEnding)
  {
    assert VerbEnd(s, 0) == Some(7);
    assert StyleAfterVerb(s, 7) == ItemAfterSpaces(s, 12, StyleEnding);
  }

  /** An article followed by a single space and an item: the item after the article is taken. */
  lemma ArticleFirst(s: string, x: nat, b: nat, t: Ending)
    requires x < |s| && Fold(s[x]) == 'a' && b == x + 2 && RunEnd(s, x + 1, Space) == b
    requires LazyItem(s, b, t).Some?
    ensures ArticleItem(s, x, t) == LazyItem(s, b, t)
  {
    assert ItemBackoff(s, b, b, t) == LazyItem(s, b, t);
  }

  /** The words of a style phrase before the article: `haircut`, a space, `with`. */
  lemma StyleHead(style: string, s: string)
    requires s == StylePhrase(style)
    ensures LitAt(s, 0, "haircut", true) && RunEnd(s, 7, Space) == 8 && LitAt(s, 8, "with", true)
  {
    assert s[..7] == "haircut";
    forall n | 0 <= n < 7 ensures SameChar(s[n], "haircut"[n], true) {
      assert s[n] == s[..7][n];
    }
    assert s[7] == ' ' && s[8] == 'w';
    RunEndAt(s, 7, 8, Space);
    assert s[8..12] == "with";
    forall n | 0 <= n < 4 ensures SameChar(s[8 + n], "with"[n], true) {
      assert s[8 + n] == s[8..12][n];
    }
  }

  /** The article of a style phrase, between single spaces. */
  lemma StyleArticle(style: string, s: string)
    requires |style| > 0 && AllLetters(style) && s == StylePhrase(style)
    ensures RunEnd(s, 12, Space) == 13 && Fold(s[13]) == 'a' && RunEnd(s, 14, Space) == 15
  {
    assert s[12] == ' ' && s[13] == 'a';
    RunEndAt(s, 12, 13, Space);
    assert s[14] == ' ' && s[15] == style[0];
    RunEndAt(s, 14, 15, Space);
  }

  /** The style of a style phrase runs to the end of the text. */
  lemma StyleTail(style: string, s: string)
    requires |style| > 0 && AllLetters(style) && s == StylePhrase(style)
    ensures LazyItem(s, 15, StyleEnding) == Some(Span(15, |s|))
  {
    forall k | 15 <= k < |s| ensures IsLetter(s[k]) {
      assert s[k] == style[k - 15];
    }
    LettersToEnd(s, 15);
  }

  /** What a sentence break needs where it starts: a `.`, or a `T` three places before a space. */
  lemma SeparatorNeeds(s: string, k: nat)
    ensures SeparatorAt(s, k) ==>
      k < |s| && (s[k] == '.' || (s[k] == 'T' && k + 3 < |s| && s[k + 3] == ' '))
  {
    if LitAt(s, k, ". The appointment", false) {
      LitAtChar(s, k, ". The appointment", false, 0);
    }
    if LitAt(s, k, ".  The", false) {
      LitAtChar(s, k, ".  The", false, 0);
    }
    if LitAt(s, k, "The appointment", false) {
      LitAtChar(s, k, "The appointment", false, 0);
      LitAtChar(s, k, "The appointment", false, 3);
    }
  }

  /** What `requesting ` needs where it starts: an `r`, and a space ten places on. */
  lemma RequestingNeeds(s: string, i: nat)
    ensures LitAt(s, i, "requesting ", true) ==>
      i + 10 < |s| && Fold(s[i]) == 'r' && s[i + 10] == ' '
  {
    if LitAt(s, i, "requesting ", true) {
      LitAtChar(s, i, "requesting ", true, 0);
      LitAtChar(s, i, "requesting ", true, 10);
    }
  }

  /** The characters of the opening of a style phrase. */
  lemma StylePrefixChars(j: nat)
    requires j < 15
    ensures var c := StylePhrase("")[j];
      c != '.' && c != 'T' && (c == ' ' ==> j == 7 || j == 12 || j == 14) && (Fold(c) == 'r' ==> j == 3)
  {
  }

  /** A character of a style phrase: from its opening, or a letter of the style. */
  lemma StylePhraseChar(style: string, j: nat)
    requires AllLetters(style) && j < |StylePhrase(style)|
    ensures j < 15 ==> StylePhrase(style)[j] == StylePhrase("")[j]
    ensures j >= 15 ==> IsLetter(StylePhrase(style)[j])
  {
    if j >= 15 {
      assert StylePhrase(style)[j] == style[j - 15];
    }
  }

  /** A style phrase starts no quoted request: its only spaces are too early for `requesting `. */
  lemma StylePhraseNotQuoted(style: string, i: nat)
    requires AllLetters(style)
    ensures !LitAt(StylePhrase(style), i, "requesting ", true)
  {
    var s := StylePhrase(style);
    if i + 10 < |s| {
      StylePhraseChar(style, i + 10);
      StylePhraseChar(style, i);
      if i + 10 < 15 {
        StylePrefixChars(i);
        StylePrefixChars(i + 10);
      }
    }
    RequestingNeeds(s, i);
  }

  /** A style phrase holds no sentence break: it has no `.`, and no `T` three places before a space. */
  lemma StylePhraseNoBreak(style: string, k: nat)
    requires AllLetters(style)
    ensures !SeparatorAt(StylePhrase(style), k)
  {
    var s := StylePhrase(style);
    if k < |s| {
      StylePhraseChar(style, k);
      if k < 15 {
        StylePrefixChars(k);
      } else if k + 3 < |s| {
        StylePhraseChar(style, k + 3);
      }
    }
    SeparatorNeeds(s, k);
  }

  /** A style phrase is its own window. */
  lemma StylePhraseWindow(style: string)
    requires AllLetters(style)
    ensures Window(StylePhrase(style)) == StylePhrase(style)
  {
    var s := StylePhrase(style);
    forall k | 0 <= k < |s| ensures !SeparatorAt(s, k) {
      StylePhraseNoBreak(style, k);
    }
  }

  /** Tier 2 returns the style of a style phrase, when it names no one. */
  lemma StylePhraseStyle(style: string)
    requires |style| > 0 && AllLetters(style) && !Mentions(style, StyleStopWords)
    ensures StyleRequest(StylePhrase(style)) == Some(style)
  {
    StyleAtStart(style);
    StyleTrimmed(style);
    StyleFound(StylePhrase(style), Span(15, |StylePhrase(style)|), style);
  }

  /** The style of a style phrase is its text from index 15 on, and trimming leaves it alone. */
  lemma StyleTrimmed(style: string)
    requires |style| > 0 && AllLetters(style)
    ensures Trim(StylePhrase(style)[15..|StylePhrase(style)|]) == style
  {
    assert IsLetter(style[0]) && IsLetter(style[|style| - 1]);
    TrimKeeps(style);
    assert StylePhrase(style)[15..|StylePhrase(style)|] == style;
  }

  /** Tier 2 returns the trimmed item of a match at the start when that names no one. */
  lemma StyleFound(w: string, sp: Span, item: string)
    requires StyleAt(w, 0) == Some(sp) && sp.start <= sp.end <= |w|
    requires Trim(w[sp.start..sp.end]) == item && !Mentions(item, StyleStopWords)
    ensures StyleRequest(w) == Some(item)
  {
    assert FirstFrom(w, 0, StyleAt) == Some((0, sp));
  }

  /** A style request is read back whole by tier 2, when it names no one. */
  lemma StyleRoundTrip(style: string)
    requires |style| > 0 && AllLetters(style) && !Mentions(style, StyleStopWords)
    ensures ExtractRequests(StylePhrase(style)) == Some(style)
  {
    var s := StylePhrase(style);
    StylePhraseWindow(style);
    assert QuotedRequest(s).None? by {
      forall i | 0 <= i <= |s| ensures QuotedAt(s, i).None? {
        StylePhraseNotQuoted(style, i);
      }
    }
    StylePhraseStyle(style);
  }
  /** An unquoted request as a summary phrases it. */
  function RequestPhrase(item: string): string {
    "requesting " + item + "."
  }

  /** `item` has no `for` in it, in any letter case. */
  predicate NoFor(item: string) {
    forall k :: 0 <= k < |item| ==> !LitAt(item, k, "for", true)
  }

  /** The characters of the opening of a request phrase. */
  lemma RequestPrefixChars(j: nat)
    requires j < 11
    ensures var c := RequestPhrase("")[j];
      c != '.' && c != 'T' && (IsSpace(c) ==> j == 10) && (Fold(c) == 'r' ==> j == 0)
      && Fold(c) != 'h' && (Fold(c) == 't' ==> j == 6)
  {
  }

  /** A character of a request phrase: from its opening, a letter of the item, or the final `.`. */
  lemma RequestPhraseChar(item: string, j: nat)
    requires AllLetters(item) && j < |RequestPhrase(item)|
    ensures j < 11 ==> RequestPhrase(item)[j] == RequestPhrase("")[j]
    ensures 11 <= j < 11 + |item| ==> IsLetter(RequestPhrase(item)[j])
    ensures j == 11 + |item| ==> RequestPhrase(item)[j] == '.'
  {
    if 11 <= j < 11 + |item| {
      assert RequestPhrase(item)[j] == item[j - 11];
    }
  }

  /** A request phrase holds no sentence break. */
  lemma RequestPhraseNoBreak(item: string, k: nat)
    requires AllLetters(item)
    ensures !SeparatorAt(RequestPhrase(item), k)
  {
    var s := RequestPhrase(item);
    if k < |s| {
      RequestPhraseChar(item, k);
      if k < 11 {
        RequestPrefixChars(k);
      }
      if k + 3 < |s| {
        RequestPhraseChar(item, k + 3);
        if k + 3 < 11 {
          RequestPrefixChars(k + 3);
        }
      }
    }
    SeparatorNeeds(s, k);
  }
  /** `h` with a space seven places on, or `tr` with a space four places on, at `i`. */
  predicate VerbAhead(s: string, i: nat) {
    i < |s|
    && ((Fold(s[i]) == 'h' && i + 7 < |s| && IsSpace(s[i + 7]))
        || (Fold(s[i]) == 't' && i + 4 < |s| && Fold(s[i + 1]) == 'r' && IsSpace(s[i + 4])))
  }

  /** What tier 2 needs where it starts: `h` and a space seven places on, or `tr` and a space four places on. */
  lemma StyleNeeds(s: string, i: nat)
    ensures StyleAt(s, i).Some? ==> VerbAhead(s, i)
  {
    if StyleAt(s, i).Some? {
      if LitAt(s, i, "haircut", true) {
        LitAtChar(s, i, "haircut", true, 0);
        assert RunEnd(s, i + 7, Space) > i + 7;
      } else {
        LitAtChar(s, i, "trim", true, 0);
        LitAtChar(s, i, "trim", true, 1);
        assert RunEnd(s, i + 4, Space) > i + 4;
      }
    }
  }

  /** A request phrase starts no style request: its only space is in the wrong place. */
  lemma RequestPhraseNoStyle(item: string, i: nat)
    requires AllLetters(item)
    ensures StyleAt(RequestPhrase(item), i).None?
  {
    StyleNeeds(RequestPhrase(item), i);
    RequestPhraseNoVerb(item, i);
  }

  /** Nowhere in a request phrase is there a `haircut` or `trim` followed by a space. */
  lemma RequestPhraseNoVerb(item: string, i: nat)
    requires AllLetters(item)
    ensures !VerbAhead(RequestPhrase(item), i)
  {
    var s := RequestPhrase(item);
    if i < |s| {
      RequestPhraseChar(item, i);
      if i < 11 {
        RequestPrefixChars(i);
      }
      if i + 1 < |s| {
        RequestPhraseChar(item, i + 1);
        if i + 1 < 11 {
          RequestPrefixChars(i + 1);
        }
      }
      if i + 4 < |s| {
        RequestPhraseChar(item, i + 4);
        if i + 4 < 11 {
          RequestPrefixChars(i + 4);
        }
      }
      if i + 7 < |s| {
        RequestPhraseChar(item, i + 7);
        if i + 7 < 11 {
          RequestPrefixChars(i + 7);
        }
      }
    }
  }

  /** A request phrase starts no quoted request: after its `requesting ` comes a letter, not a `"`. */
  lemma RequestPhraseNotQuoted(item: string, i: nat)
    requires |item| > 0 && AllLetters(item)
    ensures QuotedAt(RequestPhrase(item), i).None?
  {
    var s := RequestPhrase(item);
    RequestingNeeds(s, i);
    if i + 10 < |s| {
      RequestPhraseChar(item, i + 10);
      if i + 10 < 11 {
        RequestPrefixChars(i + 10);
      }
    }
    RequestPhraseChar(item, 11);
    RequestPhraseChar(item, 12);
    assert RunEnd(s, 12, Space) == 12;
  }

  /** A `for` found inside the item of a request phrase is a `for` of the item. */
  lemma ForInItem(item: string, e: nat)
    requires 11 <= e
    ensures LitAt(RequestPhrase(item), e, "for", true) ==> e - 11 < |item| && LitAt(item, e - 11, "for", true)
  {
    var s := RequestPhrase(item);
    if LitAt(s, e, "for", true) {
      var b := 11 + |item|;
      assert s[b] == '.';
      LitBefore(s, e, b, "for", true);
      assert s[11..b] == item;
      LitAtSlice(s, 11, b, e, "for", true);
    }
  }

  /** Tier 3's item in a request phrase runs up to the final `.`, as the item has no `for`. */
  lemma ItemToStop(item: string)
    requires |item| > 0 && AllLetters(item) && NoFor(item)
    ensures LazyItem(RequestPhrase(item), 11, RequestEnding) == Some(Span(11, 11 + |item|))
  {
    var s := RequestPhrase(item);
    var b := 11 + |item|;
    forall e | 11 < e < b ensures !EndingAt(s, e, RequestEnding) {
      RequestPhraseChar(item, e);
      ForInItem(item, e);
    }
    RequestPhraseChar(item, b);
    assert EndingAt(s, b, RequestEnding) && !InClass(s[b], LetterOrSpace);
    forall j | 11 <= j < b ensures InClass(s[j], LetterOrSpace) {
      RequestPhraseChar(item, j);
    }
    RunEndAt(s, 11, b, LetterOrSpace);
    var r := LazyItem(s, 11, RequestEnding);
    assert r.Some?;
    assert r.value.end <= b;
  }

  /** Tier 3 reads the item of a request phrase at its start. */
  lemma RequestAtStart(item: string)
    requires |item| > 0 && AllLetters(item) && NoFor(item)
    ensures RequestAt(RequestPhrase(item), 0) == Some(Span(11, 11 + |item|))
  {
    var s := RequestPhrase(item);
    RequestHead(item, s);
    ItemToStop(item);
    ArticleSkipped(s, 11, RequestEnding);
    assert ItemAfterSpaces(s, 10, RequestEnding) == Some(Span(11, 11 + |item|));
  }

  /** The opening of a request phrase: `requesting`, one space, and a letter that is no space. */
  lemma RequestHead(item: string, s: string)
    requires |item| > 0 && AllLetters(item) && s == RequestPhrase(item)
    ensures LitAt(s, 0, "requesting", true) && RunEnd(s, 10, Space) == 11
    ensures 12 < |s| && RunEnd(s, 12, Space) == 12
  {
    RequestPhraseOpens(item, s);
    RequestPhraseChar(item, 11);
    RequestPhraseChar(item, 12);
    OneSpaceThenLetter(s, 10);
  }

  /** A request phrase opens with `requesting` and a space. */
  lemma RequestPhraseOpens(item: string, s: string)
    requires s == RequestPhrase(item)
    ensures LitAt(s, 0, "requesting", true) && s[10] == ' '
  {
    assert s[..11] == "requesting ";
    RequestingAtStart(s);
  }

  /** A space, a letter, then a letter or a `.`: the run of white space from `i` is that one space. */
  lemma OneSpaceThenLetter(s: string, i: nat)
    requires i + 2 < |s| && s[i] == ' '
    requires IsLetter(s[i + 1]) && (IsLetter(s[i + 2]) || s[i + 2] == '.')
    ensures RunEnd(s, i, Space) == i + 1 && RunEnd(s, i + 2, Space) == i + 2
  {
    LetterNotSpace(s[i + 1]);
    if s[i + 2] != '.' {
      LetterNotSpace(s[i + 2]);
    }
    RunEndAt(s, i, i + 1, Space);
    RunEndAt(s, i + 2, i + 2, Space);
  }

  /** Without white space after it, a leading `a` is no article: the item is tried from `x`. */
  lemma ArticleSkipped(s: string, x: nat, t: Ending)
    requires RunEnd(s, x + 1, Space) == x + 1
    ensures ArticleItem(s, x, t) == LazyItem(s, x, t)
  {
  }

  /** Tier 3 returns the item of a request phrase, when it is not a generic word. */
  lemma RequestPhraseRequest(item: string)
    requires |item| > 0 && AllLetters(item) && NoFor(item) && !Mentions(item, RequestStopWords)
    ensures PlainRequest(RequestPhrase(item)) == Some(item)
  {
    RequestAtStart(item);
    RequestTrimmed(item);
    RequestFound(RequestPhrase(item), Span(11, 11 + |item|), item);
  }

  /** The item of a request phrase sits between its opening and the final `.`, and trimming leaves it alone. */
  lemma RequestTrimmed(item: string)
    requires |item| > 0 && AllLetters(item)
    ensures Trim(RequestPhrase(item)[11..11 + |item|]) == item
  {
    assert IsLetter(item[0]) && IsLetter(item[|item| - 1]);
    TrimKeeps(item);
    assert RequestPhrase(item)[11..11 + |item|] == item;
  }

  /** Tier 3 returns the trimmed item of a match at the start when that is not a generic word. */
  lemma RequestFound(w: string, sp: Span, item: string)
    requires RequestAt(w, 0) == Some(sp) && sp.start <= sp.end <= |w|
    requires Trim(w[sp.start..sp.end]) == item && !Mentions(item, RequestStopWords)
    ensures PlainRequest(w) == Some(item)
  {
    assert FirstFrom(w, 0, RequestAt) == Some((0, sp));
  }

  /**
   * An unquoted request is read back whole by tier 3, when it is not a generic word and has no
   * `for` in it (the lazy item would stop at the first `for`, even inside a word).
   */
  lemma RequestRoundTrip(item: string)
    requires |item| > 0 && AllLetters(item) && NoFor(item) && !Mentions(item, RequestStopWords)
    ensures ExtractRequests(RequestPhrase(item)) == Some(item)
  {
    var s := RequestPhrase(item);
    assert Window(s) == s by {
      forall k | 0 <= k < |s| ensures !SeparatorAt(s, k) {
        RequestPhraseNoBreak(item, k);
      }
    }
    assert QuotedRequest(s).None? by {
      forall i | 0 <= i <= |s| ensures QuotedAt(s, i).None? {
        RequestPhraseNotQuoted(item, i);
      }
    }
    assert StyleRequest(s).None? by {
      forall i | 0 <= i <= |s| ensures StyleAt(s, i).None? {
        RequestPhraseNoStyle(item, i);
      }
    }
    RequestPhraseRequest(item);
  }
}
