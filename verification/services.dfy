/**
 * The service classifier of `extractBookingInfo` (server/bookingService.js lines 102-122):
 * a change of request to a beard trim or a haircut overrides everything; otherwise the summary
 * is searched for a beard trim, a child's haircut and a plain haircut, and the services found
 * are joined with " and " in a fixed order.
 */
module Services {
  import opened Optional
  import opened Chars
  import opened Scan

  /** The services the shop offers, in the order the classifier lists them. */
  datatype Service = MensHaircut | KidsHaircut | BeardTrim {
    function Rank(): nat {
      match this
      case MensHaircut => 0
      case KidsHaircut => 1
      case BeardTrim => 2
    }

    function Label(): string {
      match this
      case MensHaircut => "men's haircut"
      case KidsHaircut => "kid's haircut"
      case BeardTrim => "beard trim"
    }
  }

  /** What the booking says when no service was recognised. */
  const DefaultService: string := "appointment"

  /** The two targets of an override: `beard\s*trim` and `(?:men's\s+)?haircut`. */
  datatype Target = BeardTarget | HaircutTarget

  /** `beard\s*trim` (case-insensitive) at `i`, with the index after it. */
  function BeardTrimEnd(s: string, i: nat): (r: Option<nat>)
    ensures r.Some? ==> i + 9 <= r.value <= |s|
  {
    if LitAt(s, i, "beard", true) then
      var t := RunEnd(s, i + 5, Space);
      if LitAt(s, t, "trim", true) then Some(t + 4) else None
    else None
  }

  /** `(?:men's\s+)?haircut` (case-insensitive) at `i`, with the index after it; both choices. */
  function HaircutEnds(s: string, i: nat): (r: set<nat>)
    ensures forall e :: e in r ==> i + 7 <= e <= |s|
  {
    var plain := if LitAt(s, i, "haircut", true) then {i + 7} else {};
    var mens :=
      if LitAt(s, i, "men's", true) then
        var w := RunEnd(s, i + 5, Space);
        if w > i + 5 && LitAt(s, w, "haircut", true) then {w + 7} else {}
      else {};
    mens + plain
  }

  /** An override target at `i`. */
  predicate TargetAt(s: string, i: nat, t: Target) {
    match t
    case BeardTarget => BeardTrimEnd(s, i).Some?
    case HaircutTarget => HaircutEnds(s, i) != {}
  }

  /** `\s+(?:a\s+)?` followed by the target, from `p`. */
  predicate ArticleTargetAt(s: string, p: nat, t: Target) {
    var w := RunEnd(s, p, Space);
    w > p && (TargetAt(s, w, t) ||
      (LitAt(s, w, "a", true) &&
        var w2 := RunEnd(s, w + 1, Space);
        w2 > w + 1 && TargetAt(s, w2, t)))
  }

  /** `(?:to|request to)\s+(?:a\s+)?` followed by the target, at `j`. */
  predicate ToTargetAt(s: string, j: nat, t: Target) {
    (LitAt(s, j, "to", true) && ArticleTargetAt(s, j + 2, t)) ||
    (LitAt(s, j, "request to", true) && ArticleTargetAt(s, j + 10, t))
  }

  /** The phrase introducing target `t` at `j`, as a pattern value. */
  function TargetPhrase(t: Target): (string, nat) -> bool {
    (s: string, j: nat) => ToTargetAt(s, j, t)
  }

  /**
   * The meaning of `/changed.*(?:to|request to)…/i.test(s)`: somewhere "changed" is followed,
   * on the same line, by the phrase that introduces the target.
   */
  ghost predicate ChangedToSpec(s: string, t: Target) {
    exists c, j :: 0 <= c && c + 7 <= j <= |s| && LitAt(s, c, "changed", true)
      && (forall k :: c + 7 <= k < j ==> InClass(s[k], NotLineEnd)) && TargetPhrase(t)(s, j)
  }

  /** "changed" at `c`, followed on its line by the phrase introducing the target. */
  predicate ChangedAt(s: string, c: nat, t: Target) {
    LitAt(s, c, "changed", true) && FoundWithin(s, c + 7, RunEnd(s, c + 7, NotLineEnd), TargetPhrase(t))
  }

  /** The override test of lines 105 and 107. */
  predicate ChangedTo(s: string, t: Target) {
    Occurs(s, (s': string, c: nat) => ChangedAt(s', c, t))
  }

  /** The scan finds "changed" where the greedy `.*` can reach the target phrase, and only there. */
  lemma {:induction false} ChangedAtMeans(s: string, c: nat, t: Target)
    ensures ChangedAt(s, c, t) <==> (LitAt(s, c, "changed", true) &&
      exists j :: c + 7 <= j <= |s| && (forall k :: c + 7 <= k < j ==> InClass(s[k], NotLineEnd))
        && TargetPhrase(t)(s, j))
  {
    FoundWithinRun(s, c + 7, NotLineEnd, TargetPhrase(t));
  }

  /** The override scan decides exactly the regular expression's meaning. */
  lemma {:induction false} ChangedToMeans(s: string, t: Target)
    ensures ChangedTo(s, t) <==> ChangedToSpec(s, t)
  {
    var at := (s': string, c: nat) => ChangedAt(s', c, t);
    if ChangedTo(s, t) {
      var c := FindFrom(s, 0, at).value;
      assert ChangedAt(s, c, t) by { assert at(s, c); }
      ChangedAtMeans(s, c, t);
      var j :| c + 7 <= j <= |s| && (forall k :: c + 7 <= k < j ==> InClass(s[k], NotLineEnd))
        && TargetPhrase(t)(s, j);
      assert ChangedToSpec(s, t);
    }
    if ChangedToSpec(s, t) {
      var c, j :| 0 <= c && c + 7 <= j <= |s| && LitAt(s, c, "changed", true)
        && (forall k :: c + 7 <= k < j ==> InClass(s[k], NotLineEnd)) && TargetPhrase(t)(s, j);
      ChangedAtMeans(s, c, t);
      assert at(s, c);
    }
  }

  /** `\bbeard\s*trim\b` at `i`. */
  predicate BeardTrimAt(s: string, i: nat) {
    BoundaryAt(s, i) &&
    match BeardTrimEnd(s, i)
    case None => false
    case Some(e) => BoundaryAt(s, e)
  }

  /** `'?s?\s+haircut` from `p`; a present apostrophe or `s` has to be consumed. */
  predicate PossessiveHaircutAt(s: string, p: nat) {
    var p1 := if p < |s| && s[p] == '\'' then p + 1 else p;
    var p2 := if p1 < |s| && SameChar(s[p1], 's', true) then p1 + 1 else p1;
    var w := RunEnd(s, p2, Space);
    w > p2 && LitAt(s, w, "haircut", true)
  }

  /** `\s+` then one of `alts` from `p`. */
  predicate SpaceThenOneOf(s: string, p: nat, alts: seq<string>) {
    var w := RunEnd(s, p, Space);
    w > p && exists a :: a in alts && LitAt(s, w, a, true)
  }

  /** `haircut\s+for\s+(?:his|her)\s+(?:son|daughter|child)` at `i`. */
  predicate HaircutForChildAt(s: string, i: nat) {
    LitAt(s, i, "haircut", true) &&
    var f := RunEnd(s, i + 7, Space);
    f > i + 7 && LitAt(s, f, "for", true) &&
    var h := RunEnd(s, f + 3, Space);
    h > f + 3 && (LitAt(s, h, "his", true) || LitAt(s, h, "her", true)) &&
    SpaceThenOneOf(s, h + 3, ["son", "daughter", "child"])
  }

  /** The child's-haircut pattern of line 111 at `i`. */
  predicate KidsHaircutAt(s: string, i: nat) {
    (LitAt(s, i, "kid", true) && PossessiveHaircutAt(s, i + 3)) ||
    (LitAt(s, i, "child", true) && PossessiveHaircutAt(s, i + 5)) ||
    HaircutForChildAt(s, i)
  }

  /** `\b(?:men's\s+)?haircut\b` at `i`. */
  predicate HaircutAt(s: string, i: nat) {
    BoundaryAt(s, i) && exists e :: e in HaircutEnds(s, i) && BoundaryAt(s, e)
  }

  predicate HasBeardTrim(s: string) {
    Occurs(s, BeardTrimAt)
  }

  predicate HasKidsHaircut(s: string) {
    Occurs(s, KidsHaircutAt)
  }

  predicate HasHaircut(s: string) {
    Occurs(s, HaircutAt)
  }

  /** The sequences the classifier can produce: in rank order, never both kinds of haircut. */
  predicate WellFormed(xs: seq<Service>) {
    (forall i, j :: 0 <= i < j < |xs| ==> xs[i].Rank() < xs[j].Rank())
    && !(MensHaircut in xs && KidsHaircut in xs)
  }

  /** What the five tests of lines 105-112 find in a summary. */
  datatype Detection = Detection(
    beardOverride: bool, haircutOverride: bool, beardTrim: bool, kidsHaircut: bool, haircut: bool)

  function Detect(summary: string): (d: Detection)
    ensures d.beardOverride <==> ChangedToSpec(summary, BeardTarget)
    ensures d.haircutOverride <==> ChangedToSpec(summary, HaircutTarget)
    ensures d.beardTrim <==> exists k :: 0 <= k <= |summary| && BeardTrimAt(summary, k)
    ensures d.kidsHaircut <==> exists k :: 0 <= k <= |summary| && KidsHaircutAt(summary, k)
    ensures d.haircut <==> exists k :: 0 <= k <= |summary| && HaircutAt(summary, k)
  {
    ChangedToMeans(summary, BeardTarget);
    ChangedToMeans(summary, HaircutTarget);
    Detection(ChangedTo(summary, BeardTarget), ChangedTo(summary, HaircutTarget),
      HasBeardTrim(summary), HasKidsHaircut(summary), HasHaircut(summary))
  }

  /** The services the classifier lists for the test outcomes `d`. */
  function Choose(d: Detection): (r: seq<Service>)
    ensures WellFormed(r)
    ensures d.beardOverride ==> r == [BeardTrim]
    ensures !d.beardOverride && d.haircutOverride ==> r == [MensHaircut]
    ensures !d.beardOverride && !d.haircutOverride ==>
      (BeardTrim in r <==> d.beardTrim) &&
      (KidsHaircut in r <==> d.kidsHaircut) &&
      (MensHaircut in r <==> d.haircut && !d.kidsHaircut)
  {
    if d.beardOverride then [BeardTrim]
    else if d.haircutOverride then [MensHaircut]
    else
      var mens := !d.kidsHaircut && d.haircut;
      (if mens then [MensHaircut] else []) + (if d.kidsHaircut then [KidsHaircut] else []) +
      (if d.beardTrim then [BeardTrim] else [])
  }

  /** The services recognised in a summary, in the order the classifier pushes them. */
  function Classify(summary: string): (r: seq<Service>)
    ensures WellFormed(r)
    ensures ChangedToSpec(summary, BeardTarget) ==> r == [BeardTrim]
    ensures !ChangedToSpec(summary, BeardTarget) && ChangedToSpec(summary, HaircutTarget) ==>
      r == [MensHaircut]
    ensures !ChangedToSpec(summary, BeardTarget) && !ChangedToSpec(summary, HaircutTarget) ==>
      (BeardTrim in r <==> HasBeardTrim(summary)) &&
      (KidsHaircut in r <==> HasKidsHaircut(summary)) &&
      (MensHaircut in r <==> HasHaircut(summary) && !HasKidsHaircut(summary))
  {
    Choose(Detect(summary))
  }

  /** `Array.prototype.join`. */
  function Join(xs: seq<string>, sep: string): string
    decreases |xs|
  {
    if |xs| == 0 then "" else if |xs| == 1 then xs[0] else xs[0] + sep + Join(xs[1..], sep)
  }

  /** The labels of the services, in order. */
  function Labels(xs: seq<Service>): (r: seq<string>)
    ensures |r| == |xs| && forall k :: 0 <= k < |xs| ==> r[k] == xs[k].Label()
  {
    seq(|xs|, k requires 0 <= k < |xs| => xs[k].Label())
  }

  /** The text the booking shows for the recognised services. */
  function ServiceName(xs: seq<Service>): string {
    if |xs| == 0 then DefaultService else Join(Labels(xs), " and ")
  }

  /**
   * The service text of `extractBookingInfo`: always an entry of the fixed vocabulary, and one
   * that reads back as the services classified.
   */
  function ExtractService(summary: string): (r: string)
    ensures r in Vocabulary
    ensures ParseServiceName(r) == Some(Classify(summary))
  {
    ServiceNameRoundTrip(Classify(summary));
    ServiceName(Classify(summary))
  }

  /** The first three ranks of a well-formed list increase. */
  lemma RanksIncrease(xs: seq<Service>)
    ensures WellFormed(xs) && |xs| >= 3 ==>
      xs[0].Rank() < xs[1].Rank() && xs[1].Rank() < xs[2].Rank() && xs[0] in xs && xs[1] in xs
  {
  }

  /** Every well-formed list of services, spelled out. */
  lemma {:induction false} WellFormedCases(xs: seq<Service>)
    requires WellFormed(xs)
    ensures xs in [[], [MensHaircut], [KidsHaircut], [BeardTrim],
      [MensHaircut, BeardTrim], [KidsHaircut, BeardTrim]]
  {
    if |xs| >= 3 {
      RanksIncrease(xs);
      assert false;
    } else if |xs| == 2 {
      assert xs == [xs[0], xs[1]];
      assert xs[0].Rank() < xs[1].Rank();
      assert xs[0] in xs && xs[1] in xs;
      match xs[0]
      case MensHaircut => assert xs[1] == BeardTrim;
      case KidsHaircut => assert xs[1] == BeardTrim;
      case BeardTrim => assert false;
    } else if |xs| == 1 {
      assert xs == [xs[0]];
      match xs[0]
      case MensHaircut =>
      case KidsHaircut =>
      case BeardTrim =>
    }
  }

  /** The service texts the booking can carry. */
  const Vocabulary: seq<string> := [DefaultService, "men's haircut", "kid's haircut",
    "beard trim", "men's haircut and beard trim", "kid's haircut and beard trim"]

  /** Reads the recognised services back from the service text. */
  function ParseServiceName(name: string): (r: Option<seq<Service>>)
    ensures r.Some? ==> WellFormed(r.value)
  {
    if name == DefaultService then Some([])
    else if name == "men's haircut" then Some([MensHaircut])
    else if name == "kid's haircut" then Some([KidsHaircut])
    else if name == "beard trim" then Some([BeardTrim])
    else if name == "men's haircut and beard trim" then Some([MensHaircut, BeardTrim])
    else if name == "kid's haircut and beard trim" then Some([KidsHaircut, BeardTrim])
    else None
  }

  /** The service text loses nothing: the recognised services can be read back from it. */
  lemma {:induction false} ServiceNameRoundTrip(xs: seq<Service>)
    requires WellFormed(xs)
    ensures ServiceName(xs) in Vocabulary
    ensures ParseServiceName(ServiceName(xs)) == Some(xs)
  {
    WellFormedCases(xs);
    if |xs| == 2 {
      RoundTripPair(xs[0]);
      assert xs == [xs[0], BeardTrim];
    } else if |xs| == 1 {
      RoundTripSingle(xs[0]);
      assert xs == [xs[0]];
    }
  }

  /** The round trip for one service. */
  lemma RoundTripSingle(x: Service)
    ensures ServiceName([x]) in Vocabulary && ParseServiceName(ServiceName([x])) == Some([x])
  {
    SingleName(x);
  }

  /** The round trip for a haircut with a beard trim. */
  lemma RoundTripPair(x: Service)
    requires x != BeardTrim
    ensures ServiceName([x, BeardTrim]) in Vocabulary
    ensures ParseServiceName(ServiceName([x, BeardTrim])) == Some([x, BeardTrim])
  {
    PairName(x);
    if x == MensHaircut {
      assert ServiceName([x, BeardTrim]) == "men's haircut and beard trim";
    } else {
      assert ServiceName([x, BeardTrim]) == "kid's haircut and beard trim";
    }
  }

  /** Two services are named by their labels joined with ` and `. */
  lemma PairName(x: Service)
    ensures ServiceName([x, BeardTrim]) == x.Label() + " and " + "beard trim"
  {
    var ys := Labels([x, BeardTrim]);
    assert ys == [x.Label(), "beard trim"];
    assert ys[1..] == ["beard trim"];
    assert Join(ys[1..], " and ") == "beard trim";
  }


  /**
   * A change of request to a beard trim decides the service whatever else the summary says; a
   * change to a haircut does so unless there is also a change to a beard trim.
   */
  lemma OverrideWins(summary: string)
    ensures ChangedToSpec(summary, BeardTarget) ==> ExtractService(summary) == "beard trim"
    ensures !ChangedToSpec(summary, BeardTarget) && ChangedToSpec(summary, HaircutTarget) ==>
      ExtractService(summary) == "men's haircut"
  {
    if ChangedToSpec(summary, BeardTarget) {
      SingleName(BeardTrim);
    } else if ChangedToSpec(summary, HaircutTarget) {
      SingleName(MensHaircut);
    }
  }

  /** A single service is named by its own label. */
  lemma SingleName(x: Service)
    ensures ServiceName([x]) == x.Label()
  {
    assert Labels([x]) == [x.Label()];
  }
}

/** Worked cases of the service classifier. */
module ServicesExamples {
  import opened Scan
  import opened Services

  lemma TrimTarget()
    ensures TargetAt("changed to beard trim", 11, BeardTarget)
  {
    var s := "changed to beard trim";
    assert s[11..16] == "beard" && s[17..21] == "trim";
    LitHere(s, 11, "beard", true);
    SpaceBeforeLetter(s, 16);
    LitHere(s, 17, "trim", true);
  }

  lemma TrimPhrase()
    ensures TargetPhrase(BeardTarget)("changed to beard trim", 8)
  {
    var s := "changed to beard trim";
    assert s[8..10] == "to";
    LitHere(s, 8, "to", true);
    SpaceBeforeLetter(s, 10);
    TrimTarget();
  }

  /** A summary reporting a change of request names only the new service. */
  lemma ChangedToBeardTrim()
    ensures ExtractService("changed to beard trim") == "beard trim"
  {
    ChangedPhrase();
    OverrideWins("changed to beard trim");
  }

  lemma ChangedPhrase()
    ensures ChangedToSpec("changed to beard trim", BeardTarget)
  {
    var s := "changed to beard trim";
    TrimPhrase();
    assert LitAt(s, 0, "changed", true);
    assert InClass(s[7], NotLineEnd);
  }
}
